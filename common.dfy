/** Small building blocks shared by both route handlers: optional values,
    bytes, the string searches JavaScript's `includes`, `indexOf` and
    `lastIndexOf` perform, first-truthy selection, and decimal rendering of
    a non-negative integer (what a template string does with a number). */
module Common {

  datatype Option<+T> = None | Some(value: T)

  datatype Result<+R, +E> = Success(value: R) | Failure(error: E)

  /** An octet, as held by an ArrayBuffer. */
  type byte = x: int | 0 <= x < 256

  /** The message of a thrown JavaScript error; `None` when the thrown value
      has no `message` property. */
  type ErrorMessage = Option<string>

  // ---------------------------------------------------------------------
  // Substring search (String.prototype.includes)
  // ---------------------------------------------------------------------

  /** `sub` occurs in `s` starting at index `i`. */
  ghost predicate OccursAt(s: string, sub: string, i: int) {
    0 <= i && i + |sub| <= |s| && s[i..i + |sub|] == sub
  }

  /** `s.includes(sub)`: some position of `s` starts an occurrence of `sub`
      (the empty string occurs everywhere). */
  function Contains(s: string, sub: string): (b: bool)
    ensures b <==> exists i :: OccursAt(s, sub, i)
    decreases |s|
  {
    if sub <= s then
      assert OccursAt(s, sub, 0);
      true
    else if |s| <= |sub| then
      assert forall i :: !OccursAt(s, sub, i);
      false
    else
      var b := Contains(s[1..], sub);
      if b then
        assert exists i :: OccursAt(s, sub, i) by {
          var i :| OccursAt(s[1..], sub, i);
          assert s[1..][i..i + |sub|] == s[i + 1..i + 1 + |sub|];
          assert OccursAt(s, sub, i + 1);
        }
        true
      else
        forall i | OccursAt(s, sub, i) ensures i >= 1 && OccursAt(s[1..], sub, i - 1) {
          assert s[1..][i - 1..i - 1 + |sub|] == s[i..i + |sub|];
        }
        false
  }

  // ---------------------------------------------------------------------
  // Character search (String.prototype.indexOf / lastIndexOf)
  // ---------------------------------------------------------------------

  /** The first index of `c` in `s`, if any. */
  function IndexOf(s: string, c: char): (r: Option<nat>)
    ensures r.Some? ==> r.value < |s| && s[r.value] == c
    ensures r.Some? ==> forall j :: 0 <= j < r.value ==> s[j] != c
    ensures r.None? <==> c !in s
  {
    if s == [] then None
    else if s[0] == c then Some(0)
    else
      match IndexOf(s[1..], c)
      case None => None
      case Some(k) => Some(k + 1)
  }

  /** The first `c` of `x + y` is the first character of `y` when `x` holds
      none. */
  lemma IndexOfJoin(x: string, y: string, c: char)
    requires c !in x && y != [] && y[0] == c
    ensures IndexOf(x + y, c) == Some(|x|)
  {
    assert (x + y)[|x|] == c;
    forall j | 0 <= j < |x| ensures (x + y)[j] != c {
      assert (x + y)[j] == x[j];
    }
  }

  /** The last index of `c` in `s`, if any. */
  function LastIndexOf(s: string, c: char): (r: Option<nat>)
    ensures r.Some? ==> r.value < |s| && s[r.value] == c
    ensures r.Some? ==> forall j :: r.value < j < |s| ==> s[j] != c
    ensures r.None? <==> c !in s
  {
    if s == [] then None
    else if s[|s| - 1] == c then Some(|s| - 1)
    else
      var r := LastIndexOf(s[..|s| - 1], c);
      assert s == s[..|s| - 1] + [s[|s| - 1]];
      r
  }

  /** The last `c` of `x + [c] + y` is the one between them when `y` holds
      none. */
  lemma {:induction false} LastIndexOfJoin(x: string, c: char, y: string)
    requires c !in y
    ensures LastIndexOf(x + [c] + y, c) == Some(|x|)
    decreases |y|
  {
    var s := x + [c] + y;
    if y == [] {
      assert s == x + [c];
      assert s[|s| - 1] == c;
    } else {
      var y' := y[..|y| - 1];
      assert s[..|s| - 1] == x + [c] + y';
      assert s[|s| - 1] == y[|y| - 1];
      assert c !in y' by {
        forall j | 0 <= j < |y'| ensures y'[j] != c {
          assert y'[j] == y[j];
        }
      }
      LastIndexOfJoin(x, c, y');
    }
  }

  // ---------------------------------------------------------------------
  // First-truthy selection (`a || b || c`)
  // ---------------------------------------------------------------------

  /** The first present candidate, as a chain `c0 || c1 || ...` yields when
      every absent or falsy value is `None`. */
  function FirstSome<T>(candidates: seq<Option<T>>): (r: Option<T>)
    ensures r.None? <==> forall i :: 0 <= i < |candidates| ==> candidates[i].None?
    ensures r.Some? ==> exists i :: 0 <= i < |candidates| && candidates[i] == r
                                   && forall j :: 0 <= j < i ==> candidates[j].None?
  {
    if candidates == [] then None
    else if candidates[0].Some? then candidates[0]
    else
      var r := FirstSome(candidates[1..]);
      assert r.Some? ==> exists i :: 0 <= i < |candidates| && candidates[i] == r
                                     && forall j :: 0 <= j < i ==> candidates[j].None? by {
        if r.Some? {
          var i :| 0 <= i < |candidates[1..]| && candidates[1..][i] == r
                   && forall j :: 0 <= j < i ==> candidates[1..][j].None?;
          assert candidates[i + 1] == r;
        }
      }
      r
  }

  /** `a || b || c || d` for four candidates. */
  lemma FirstSomeOfFour<T>(a: Option<T>, b: Option<T>, c: Option<T>, d: Option<T>)
    ensures FirstSome([a, b, c, d]) ==
              if a.Some? then a else if b.Some? then b else if c.Some? then c else d
  {
    assert [d][1..] == [];
    assert FirstSome([d]) == d;
    assert [c, d][1..] == [d];
    assert FirstSome([c, d]) == if c.Some? then c else d;
    assert [b, c, d][1..] == [c, d];
    assert FirstSome([b, c, d]) == if b.Some? then b else FirstSome([c, d]);
    assert [a, b, c, d][1..] == [b, c, d];
  }

  /** JavaScript truthiness of a string that may be missing: `undefined` and
      the empty string are falsy. */
  function Truthy(s: Option<string>): (r: Option<string>)
    ensures r.Some? <==> s.Some? && s.value != ""
    ensures r.Some? ==> r == s
  {
    if s == Some("") then None else s
  }

  // ---------------------------------------------------------------------
  // Decimal rendering of a non-negative integer (`${n}`)
  // ---------------------------------------------------------------------

  predicate IsDigit(c: char) {
    '0' <= c <= '9'
  }

  function DigitChar(d: nat): (c: char)
    requires d < 10
    ensures IsDigit(c) && DigitValue(c) == d
  {
    ('0' as int + d) as char
  }

  function DigitValue(c: char): nat
    requires IsDigit(c)
  {
    c as int - '0' as int
  }

  /** The value of a string of decimal digits. */
  function ParseDecimal(s: string): nat
    requires forall i :: 0 <= i < |s| ==> IsDigit(s[i])
  {
    if s == [] then 0
    else ParseDecimal(s[..|s| - 1]) * 10 + DigitValue(s[|s| - 1])
  }

  /** The shortest decimal rendering of `n`: digits only, no leading zero,
      and it reads back as `n`. */
  function DecimalString(n: nat): (s: string)
    ensures |s| >= 1
    ensures forall i :: 0 <= i < |s| ==> IsDigit(s[i])
    ensures |s| > 1 ==> s[0] != '0'
    ensures ParseDecimal(s) == n
  {
    if n < 10 then [DigitChar(n)]
    else
      var s := DecimalString(n / 10) + [DigitChar(n % 10)];
      assert s[..|s| - 1] == DecimalString(n / 10);
      s
  }
}
