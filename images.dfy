/** The image reference a new post carries: with a blob store, a URL on
    the site's own image endpoint whose last segment is the generated key
    `<ms>-<sanitised file name>`; without one, a `data:` URL (section 3 of
    RFC 2397) holding the image inline as base64. */
module Images {
  import opened Common
  import Base64
  import opened Bindings

  // ---------------------------------------------------------------------
  // The generated key
  // ---------------------------------------------------------------------

  /** The characters a file name keeps: `[a-zA-Z0-9.-]`. */
  predicate IsKeyChar(c: char) {
    ('a' <= c <= 'z') || ('A' <= c <= 'Z') || ('0' <= c <= '9') || c == '.' || c == '-'
  }

  /** `name.replace(/[^a-zA-Z0-9.-]/g, '_')`: same length, every kept
      character in place, every other character turned into `_`. */
  function Sanitize(name: string): (r: string)
    ensures |r| == |name|
    ensures forall i :: 0 <= i < |r| ==> (IsKeyChar(name[i]) ==> r[i] == name[i])
    ensures forall i :: 0 <= i < |r| ==> (!IsKeyChar(name[i]) ==> r[i] == '_')
  {
    if name == [] then []
    else [if IsKeyChar(name[0]) then name[0] else '_'] + Sanitize(name[1..])
  }

  /** A sanitised name holds only kept characters and `_`; in particular
      no `/`, so it stays inside one URL path segment. */
  lemma SanitizedCharacters(name: string)
    ensures forall i :: 0 <= i < |Sanitize(name)| ==> IsKeyChar(Sanitize(name)[i]) || Sanitize(name)[i] == '_'
    ensures '/' !in Sanitize(name)
  {
  }

  /** Sanitising twice is sanitising once. */
  lemma SanitizeIdempotent(name: string)
    ensures Sanitize(Sanitize(name)) == Sanitize(name)
  {
  }

  /** A name made only of kept characters is left as it is. */
  lemma SanitizeKeepsSafeNames(name: string)
    requires forall i :: 0 <= i < |name| ==> IsKeyChar(name[i])
    ensures Sanitize(name) == name
  {
  }

  /** The blob key: upload time in milliseconds, a dash, the sanitised
      file name. */
  function ImageKey(ms: nat, name: string): string {
    DecimalString(ms) + "-" + Sanitize(name)
  }

  /** `d-n` splits back at its first dash when `d` holds no dash, and holds
      no `/` when neither part does. */
  lemma DashJoinParts(d: string, n: string)
    requires '-' !in d && '/' !in d && '/' !in n
    ensures var k := d + "-" + n;
            && IndexOf(k, '-') == Some(|d|)
            && k[..|d|] == d && k[|d| + 1..] == n
            && '/' !in k
  {
    var k := d + "-" + n;
    IndexOfJoin(d, "-" + n, '-');
    assert k == d + ("-" + n);
    forall j | 0 <= j < |k| ensures k[j] != '/' {
      if j < |d| {
        assert k[j] == d[j];
      } else if j > |d| {
        assert k[j] == n[j - |d| - 1];
      }
    }
  }

  /** The key can be taken apart again: the text before its first dash is
      the upload time, the text after it the sanitised name, and it holds
      no `/`. */
  lemma ImageKeyParts(ms: nat, name: string)
    ensures var k, n := ImageKey(ms, name), |DecimalString(ms)|;
            && IndexOf(k, '-') == Some(n)
            && ParseDecimal(k[..n]) == ms
            && k[n + 1..] == Sanitize(name)
            && '/' !in k
  {
    var d := DecimalString(ms);
    assert '-' !in d && '/' !in d by {
      forall j | 0 <= j < |d| ensures d[j] != '-' && d[j] != '/' {
        assert IsDigit(d[j]);
      }
    }
    SanitizedCharacters(name);
    DashJoinParts(d, Sanitize(name));
  }

  // ---------------------------------------------------------------------
  // The URL on the image endpoint
  // ---------------------------------------------------------------------

  const ImagesPath: string := "/api/images/"

  /** `${origin}/api/images/${key}`. */
  function ImageUrl(origin: string, key: string): string {
    origin + ImagesPath + key
  }

  /** For a key without `/`, the URL is the image endpoint on the request's
      origin and its last path segment is exactly the key. */
  lemma ImageUrlLastSegment(origin: string, key: string)
    requires '/' !in key
    ensures var u, n := ImageUrl(origin, key), |origin| + |ImagesPath|;
            && u[..n] == origin + ImagesPath
            && LastIndexOf(u, '/') == Some(n - 1)
            && u[n..] == key
  {
    var u, n := ImageUrl(origin, key), |origin| + |ImagesPath|;
    assert u[n - 1] == '/';
    assert forall j :: n - 1 < j < |u| ==> u[j] != '/' by {
      forall j | n - 1 < j < |u| ensures u[j] != '/' {
        assert u[j] == key[j - n];
      }
    }
    assert u[n..] == key;
  }

  // ---------------------------------------------------------------------
  // The inline data URL
  // ---------------------------------------------------------------------

  const DataScheme: string := "data:"
  const Base64Marker: string := ";base64"

  /** `data:${type};base64,${base64}`. */
  function DataUrl(mimeType: string, data: seq<byte>): string {
    DataScheme + mimeType + Base64Marker + "," + Base64.Encode(data)
  }

  /** What a consumer of a `data:` URL recovers from it: the media type
      and the octets. The payload starts after the last comma, since the
      base64 alphabet holds none. */
  function ParseDataUrl(u: string): Option<(string, seq<byte>)> {
    if !(DataScheme <= u) then None
    else
      match LastIndexOf(u, ',')
      case None => None
      case Some(k) =>
        if k < |DataScheme| + |Base64Marker| || u[k - |Base64Marker|..k] != Base64Marker then None
        else
          match Base64.Decode(u[k + 1..])
          case None => None
          case Some(data) => Some((u[|DataScheme|..k - |Base64Marker|], data))
  }

  /** A `data:` URL whose payload holds no comma parses back into its media
      type (commas included) and whatever its payload decodes to. */
  lemma ParseDataUrlOf(mimeType: string, payload: string)
    requires ',' !in payload
    ensures ParseDataUrl(DataScheme + mimeType + Base64Marker + "," + payload) ==
              match Base64.Decode(payload)
              case None => None
              case Some(data) => Some((mimeType, data))
  {
    var head := DataScheme + mimeType + Base64Marker;
    var u := head + [','] + payload;
    var k, m := |head|, |DataScheme| + |mimeType|;
    assert DataScheme + mimeType + Base64Marker + "," + payload == u;
    LastIndexOfJoin(head, ',', payload);
    assert u[..k] == head && u[k + 1..] == payload;
    assert head[..|DataScheme|] == DataScheme && head[|DataScheme|..m] == mimeType
           && head[m..] == Base64Marker;
    assert u[..|DataScheme|] == head[..|DataScheme|];
    assert u[m..k] == head[m..];
    assert u[|DataScheme|..m] == head[|DataScheme|..m];
  }

  /** Decoding an inline image gives back its media type and its octets,
      whatever the media type holds. */
  lemma DataUrlRoundTrip(mimeType: string, data: seq<byte>)
    ensures ParseDataUrl(DataUrl(mimeType, data)) == Some((mimeType, data))
  {
    var e := Base64.Encode(data);
    forall j | 0 <= j < |e| ensures e[j] != ',' {
      assert Base64.IsBase64Char(e[j]);
    }
    ParseDataUrlOf(mimeType, e);
    Base64.DecodeEncode(data);
  }

  // ---------------------------------------------------------------------
  // The reference stored with the post
  // ---------------------------------------------------------------------

  /** The `image` part of the form: name, declared type, content. */
  datatype ImageFile = ImageFile(name: string, mimeType: string, bytes: seq<byte>)

  /** How `STORAGE.put` ends. */
  datatype PutOutcome = PutDone | PutThrew(message: ErrorMessage)

  /** The image reference of a new post, or the error a failed upload
      throws. `nowMs` is `Date.now()`; `put` is how the upload ends. */
  function ImageReference(image: Option<ImageFile>, storage: Option<Handle>, origin: string,
                          nowMs: nat, put: PutOutcome): Result<Option<string>, ErrorMessage>
  {
    if image.None? || |image.value.bytes| == 0 then Success(None)
    else if storage.Some? then
      match put
      case PutThrew(m) => Failure(m)
      case PutDone => Success(Some(ImageUrl(origin, ImageKey(nowMs, image.value.name))))
    else
      Success(Some(DataUrl(image.value.mimeType, image.value.bytes)))
  }

  /** No reference exactly when there is no non-empty image; a failure
      only from a blob store upload that threw; and every reference
      resolves: with a blob store it is the endpoint URL whose last segment
      is the key of this upload, otherwise it decodes to the image's type
      and octets. */
  lemma ImageReferenceResolves(image: Option<ImageFile>, storage: Option<Handle>, origin: string,
                               nowMs: nat, put: PutOutcome)
    ensures var r := ImageReference(image, storage, origin, nowMs, put);
            && (r == Success(None) <==> image.None? || |image.value.bytes| == 0)
            && (r.Failure? <==> image.Some? && |image.value.bytes| > 0 && storage.Some? && put.PutThrew?)
            && (r.Success? && r.value.Some? && storage.Some? ==>
                  var u, n := r.value.value, |origin| + |ImagesPath|;
                  u[..n] == origin + ImagesPath && u[n..] == ImageKey(nowMs, image.value.name)
                  && LastIndexOf(u, '/') == Some(n - 1))
            && (r.Success? && r.value.Some? && storage.None? ==>
                  ParseDataUrl(r.value.value) == Some((image.value.mimeType, image.value.bytes)))
  {
    if image.Some? && |image.value.bytes| > 0 {
      if storage.Some? {
        ImageKeyParts(nowMs, image.value.name);
        ImageUrlLastSegment(origin, ImageKey(nowMs, image.value.name));
      } else {
        DataUrlRoundTrip(image.value.mimeType, image.value.bytes);
      }
    }
  }
}
