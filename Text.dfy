/**
 * The few Python string operations the claim script relies on:
 * `str.strip`, `str.split(",")`, `",".join`, `str.lower`, `str.isdigit`,
 * `in` on strings, `int(...)` of a digit string and `str(...)` of an int.
 */
module Text {
  import opened Options

  // ---------------------------------------------------------------------
  // Whitespace and strip
  // ---------------------------------------------------------------------

  /** The characters for which Python's `str.isspace` holds; `str.strip()` removes exactly these. */
  predicate IsSpace(c: char) {
    ('\t' <= c <= '\r') || ('\U{1c}' <= c <= '\U{1f}') || c == ' '
    || c == '\U{85}' || c == '\U{a0}' || c == '\U{1680}'
    || ('\U{2000}' <= c <= '\U{200a}') || c == '\U{2028}' || c == '\U{2029}'
    || c == '\U{202f}' || c == '\U{205f}' || c == '\U{3000}'
  }

  /** Neither end of `s` is whitespace: what `str.strip` produces. */
  predicate IsStripped(s: string) {
    s == [] || (!IsSpace(s[0]) && !IsSpace(s[|s| - 1]))
  }

  /** `s.lstrip()`: the longest suffix of `s` that does not start with whitespace. */
  function TrimLeft(s: string): (r: string)
    ensures |r| <= |s| && r == s[|s| - |r|..]
    ensures r == [] || !IsSpace(r[0])
    ensures forall k :: 0 <= k < |s| - |r| ==> IsSpace(s[k])
  {
    if s != [] && IsSpace(s[0]) then TrimLeft(s[1..]) else s
  }

  /** `s.rstrip()`: the longest prefix of `s` that does not end with whitespace. */
  function TrimRight(s: string): (r: string)
    ensures |r| <= |s| && r == s[..|r|]
    ensures r == [] || !IsSpace(r[|r| - 1])
    ensures forall k :: |r| <= k < |s| ==> IsSpace(s[k])
  {
    if s != [] && IsSpace(s[|s| - 1]) then TrimRight(s[..|s| - 1]) else s
  }

  /** A prefix of a suffix is a middle slice. */
  lemma SliceTake(s: string, i: nat, n: nat)
    requires i + n <= |s|
    ensures s[i..][..n] == s[i..i + n]
  {
  }

  /** Whitespace after position `n` of the suffix `s[i..]` is whitespace after `i + n` in `s`. */
  lemma SpacesShift(s: string, i: nat, n: nat)
    requires i + n <= |s|
    requires forall k :: n <= k < |s[i..]| ==> IsSpace(s[i..][k])
    ensures forall k :: i + n <= k < |s| ==> IsSpace(s[k])
  {
    forall k | i + n <= k < |s| ensures IsSpace(s[k]) {
      assert s[k] == s[i..][k - i];
    }
  }

  /**
   * Stripping both ends keeps the middle slice `s[i..j]` of `s`, where `i`
   * counts the leading characters dropped; only whitespace lies outside it.
   */
  lemma TrimSlice(s: string)
    ensures var i := |s| - |TrimLeft(s)|;
      var j := i + |TrimRight(TrimLeft(s))|;
      && 0 <= i <= j <= |s|
      && TrimRight(TrimLeft(s)) == s[i..j]
      && (forall k :: 0 <= k < i ==> IsSpace(s[k]))
      && (forall k :: j <= k < |s| ==> IsSpace(s[k]))
  {
    var l := TrimLeft(s);
    var r := TrimRight(l);
    var i, j := |s| - |l|, |s| - |l| + |r|;
    SliceTake(s, i, |r|);
    SpacesShift(s, i, |r|);
  }

  /** Trimming both ends leaves no whitespace at either end. */
  lemma TrimBothStripped(s: string)
    ensures IsStripped(TrimRight(TrimLeft(s)))
  {
    var l := TrimLeft(s);
    var r := TrimRight(l);
    if r != [] {
      assert r[0] == l[0];
    }
  }

  /** A slice holds only characters of the whole. */
  lemma SliceChars(s: string, i: nat, j: nat)
    requires i <= j <= |s|
    ensures forall c :: c in s[i..j] ==> c in s
  {
    forall c | c in s[i..j] ensures c in s {
      var k :| 0 <= k < j - i && s[i..j][k] == c;
      assert s[i + k] == c;
    }
  }

  /** Trimming both ends keeps only characters of `s`. */
  lemma TrimBothChars(s: string)
    ensures forall c :: c in TrimRight(TrimLeft(s)) ==> c in s
  {
    var l := TrimLeft(s);
    var r := TrimRight(l);
    var i := |s| - |l|;
    SliceTake(s, i, |r|);
    SliceChars(s, i, i + |r|);
  }

  /** Trimming both ends empties exactly the strings made only of whitespace. */
  lemma TrimBothEmpty(s: string)
    ensures TrimRight(TrimLeft(s)) == [] <==> forall k :: 0 <= k < |s| ==> IsSpace(s[k])
  {
    var l := TrimLeft(s);
    var r := TrimRight(l);
    var i := |s| - |l|;
    if r == [] {
      SpacesShift(s, i, 0);
    } else {
      assert r[0] == s[i];
    }
  }

  /** `s.strip()`: drops the whitespace at both ends and nothing else. */
  function Strip(s: string): (r: string)
    ensures IsStripped(r)
    ensures |r| <= |s|
    ensures forall c :: c in r ==> c in s
    ensures r == [] <==> forall k :: 0 <= k < |s| ==> IsSpace(s[k])
  {
    TrimBothStripped(s);
    TrimBothChars(s);
    TrimBothEmpty(s);
    TrimRight(TrimLeft(s))
  }

  /** `strip` removes whitespace from the two ends only: what is left is one slice of the input. */
  lemma StripSlice(s: string)
    ensures exists i, j :: 0 <= i <= j <= |s| && Strip(s) == s[i..j]
                         && (forall k :: 0 <= k < i ==> IsSpace(s[k]))
                         && (forall k :: j <= k < |s| ==> IsSpace(s[k]))
  {
    TrimSlice(s);
  }

  /** Stripping a string whose ends are not whitespace changes nothing. */
  lemma StripStripped(s: string)
    requires IsStripped(s)
    ensures Strip(s) == s
  {
    assert TrimLeft(s) == s;
    assert TrimRight(s) == s;
  }

  // ---------------------------------------------------------------------
  // Splitting on one separator and joining back
  // ---------------------------------------------------------------------

  /** `s.split(d)` for a one-character separator: always at least one piece, none containing `d`. */
  function Split(s: string, d: char): (r: seq<string>)
    ensures |r| >= 1
    ensures forall p :: p in r ==> d !in p
  {
    if s == [] then [""]
    else
      var rest := Split(s[1..], d);
      if s[0] == d then [""] + rest else [[s[0]] + rest[0]] + rest[1..]
  }

  /** `d.join(ps)`. */
  function Join(ps: seq<string>, d: char): string {
    if ps == [] then ""
    else if |ps| == 1 then ps[0]
    else ps[0] + [d] + Join(ps[1..], d)
  }

  /** Joining pieces that start with `x`: `x`, then the separator and the rest when there is any. */
  lemma JoinCons(x: string, ps: seq<string>, d: char)
    ensures Join([x] + ps, d) == x + (if ps == [] then "" else [d] + Join(ps, d))
  {
    assert ([x] + ps)[1..] == ps;
  }

  /** Joining the pieces of a split gives back the string. */
  lemma {:induction false} JoinSplit(s: string, d: char)
    ensures Join(Split(s, d), d) == s
  {
    if s != [] {
      var c, t := s[0], s[1..];
      var rest := Split(t, d);
      assert s == [c] + t;
      SplitCons(c, t, d);
      JoinSplit(t, d);
      if c == d {
        JoinCons("", rest, d);
      } else {
        JoinPrepend(c, rest, d);
      }
    }
  }

  /** Putting `c` in front of the first piece puts it in front of the joined text. */
  lemma JoinPrepend(c: char, ps: seq<string>, d: char)
    requires |ps| >= 1
    ensures Join([[c] + ps[0]] + ps[1..], d) == [c] + Join(ps, d)
  {
    var tailJoin := if ps[1..] == [] then "" else [d] + Join(ps[1..], d);
    JoinCons([c] + ps[0], ps[1..], d);
    JoinCons(ps[0], ps[1..], d);
    assert [ps[0]] + ps[1..] == ps;
    assert ([c] + ps[0]) + tailJoin == [c] + (ps[0] + tailJoin);
  }

  /** A separator-free prefix followed by the separator becomes one whole piece. */
  lemma {:induction false} SplitAtSeparator(a: string, d: char, b: string)
    requires d !in a
    ensures Split(a + [d] + b, d) == [a] + Split(b, d)
  {
    if a == [] {
      assert a + [d] + b == [d] + b;
      assert ([d] + b)[1..] == b;
    } else {
      SplitAtSeparator(a[1..], d, b);
      assert (a + [d] + b)[1..] == a[1..] + [d] + b;
      assert [a[0]] + a[1..] == a;
    }
  }

  /** Splitting a string that starts with `c`: a separator opens a new piece, anything else joins the first one. */
  lemma SplitCons(c: char, t: string, d: char)
    ensures Split([c] + t, d)
            == if c == d then [""] + Split(t, d) else [[c] + Split(t, d)[0]] + Split(t, d)[1..]
  {
    assert ([c] + t)[1..] == t;
  }

  /** Text joined at a separator splits into the pieces of the left part followed by those of the right part. */
  lemma {:induction false} SplitAppend(a: string, d: char, b: string)
    ensures Split(a + [d] + b, d) == Split(a, d) + Split(b, d)
  {
    if a == [] {
      SplitCons(d, b, d);
      assert a + [d] + b == [d] + b;
    } else {
      var c, t := a[0], a[1..];
      var left, right := Split(t, d), Split(b, d);
      assert a == [c] + t;
      assert a + [d] + b == [c] + (t + [d] + b);
      SplitCons(c, t, d);
      SplitCons(c, t + [d] + b, d);
      SplitAppend(t, d, b);
      PiecesCons(c, d, left, right);
    }
  }

  /** Putting `c` in front of the pieces `left + right` only touches `left`. */
  lemma PiecesCons(c: char, d: char, left: seq<string>, right: seq<string>)
    requires |left| >= 1
    ensures (if c == d then [""] + (left + right) else [[c] + (left + right)[0]] + (left + right)[1..])
            == (if c == d then [""] + left else [[c] + left[0]] + left[1..]) + right
  {
    if c != d {
      assert (left + right)[1..] == left[1..] + right;
    }
  }

  /** A separator-free string is one piece. */
  lemma {:induction false} SplitWhole(a: string, d: char)
    requires d !in a
    ensures Split(a, d) == [a]
  {
    if a != [] {
      SplitWhole(a[1..], d);
      assert [a[0]] + a[1..] == a;
    }
  }

  /** Splitting a join of separator-free pieces gives the pieces back (when there is at least one). */
  lemma {:induction false} SplitJoin(ps: seq<string>, d: char)
    requires |ps| >= 1
    requires forall p :: p in ps ==> d !in p
    ensures Split(Join(ps, d), d) == ps
  {
    if |ps| == 1 {
      SplitWhole(ps[0], d);
    } else {
      SplitJoin(ps[1..], d);
      SplitAtSeparator(ps[0], d, Join(ps[1..], d));
      assert [ps[0]] + ps[1..] == ps;
    }
  }

  // ---------------------------------------------------------------------
  // Lower case and substring test
  // ---------------------------------------------------------------------

  /** Lower-cases the ASCII letters A-Z and leaves every other character alone. */
  function LowerChar(c: char): char {
    if IsUpper(c) then (c as int - 'A' as int + 'a' as int) as char else c
  }

  predicate IsUpper(c: char) { 'A' <= c <= 'Z' }

  /** `c` and `d` are the same character once ASCII case is ignored, with `d` not an upper-case letter. */
  predicate SameLetter(c: char, d: char) {
    c == d || (IsUpper(c) && d as int == c as int + 32)
  }

  /**
   * `s.lower()` on ASCII letters: no upper-case letter is left, each one is
   * replaced by its lower-case partner, and every other character is kept.
   */
  function Lower(s: string): (r: string)
    ensures |r| == |s|
    ensures forall k :: 0 <= k < |r| ==> !IsUpper(r[k])
    ensures forall k :: 0 <= k < |s| && !IsUpper(s[k]) ==> r[k] == s[k]
    ensures forall k :: 0 <= k < |s| && IsUpper(s[k]) ==> r[k] as int == s[k] as int + 32
  {
    seq(|s|, k requires 0 <= k < |s| => LowerChar(s[k]))
  }

  /** `t` occurs in `s` starting at position `i`. */
  predicate OccursAt(s: string, t: string, i: int) {
    0 <= i && i + |t| <= |s| && s[i..i + |t|] == t
  }

  /** Python's `t in s` for strings. */
  predicate Contains(s: string, t: string) {
    exists i | 0 <= i <= |s| :: OccursAt(s, t, i)
  }

  /** `t` occurs in `s` at position `i` when ASCII case in `s` is ignored. */
  predicate OccursAtIgnoringCase(s: string, t: string, i: int) {
    0 <= i && i + |t| <= |s| && forall k :: 0 <= k < |t| ==> SameLetter(s[i + k], t[k])
  }

  /** `t` occurs somewhere in `s` when ASCII case in `s` is ignored. */
  predicate ContainsIgnoringCase(s: string, t: string) {
    exists i | 0 <= i <= |s| :: OccursAtIgnoringCase(s, t, i)
  }

  /** No ASCII upper-case letter in `t`. */
  predicate NoUpper(t: string) {
    forall k :: 0 <= k < |t| ==> !IsUpper(t[k])
  }

  /** At one position, the lower-cased text shows a lower-case word exactly where the text matches it ignoring case. */
  lemma OccursAtLower(s: string, t: string, i: int)
    requires NoUpper(t)
    ensures OccursAt(Lower(s), t, i) <==> OccursAtIgnoringCase(s, t, i)
  {
    var l := Lower(s);
    if 0 <= i && i + |t| <= |s| {
      if OccursAt(l, t, i) {
        forall k | 0 <= k < |t| ensures SameLetter(s[i + k], t[k]) {
          assert l[i + k] == l[i..i + |t|][k];
        }
      }
      if OccursAtIgnoringCase(s, t, i) {
        forall k | 0 <= k < |t| ensures l[i..i + |t|][k] == t[k] {
          assert SameLetter(s[i + k], t[k]);
        }
      }
    }
  }

  /**
   * Lower-casing and then searching for a lower-case word finds exactly the
   * places where the word occurs in the original text, ignoring ASCII case:
   * what `word in text.lower()` is written for.
   */
  lemma ContainsLower(s: string, t: string)
    requires NoUpper(t)
    ensures Contains(Lower(s), t) <==> ContainsIgnoringCase(s, t)
  {
    if Contains(Lower(s), t) {
      var i :| 0 <= i <= |s| && OccursAt(Lower(s), t, i);
      OccursAtLower(s, t, i);
    }
    if exists i | 0 <= i <= |s| :: OccursAtIgnoringCase(s, t, i) {
      var i :| 0 <= i <= |s| && OccursAtIgnoringCase(s, t, i);
      OccursAtLower(s, t, i);
    }
  }

  /** Substring containment is transitive: if `u` sits inside `t` and `t` inside `s`, then `u` inside `s`. */
  lemma ContainsTransitive(s: string, t: string, u: string)
    requires Contains(s, t) && Contains(t, u)
    ensures Contains(s, u)
  {
    var i :| 0 <= i <= |s| && OccursAt(s, t, i);
    var j :| 0 <= j <= |t| && OccursAt(t, u, j);
    assert t == s[i..i + |t|];
    forall k | 0 <= k < |u| ensures s[i + j + k] == u[k] {
      assert u[k] == t[j + k];
    }
    assert s[i + j..i + j + |u|] == u;
    assert OccursAt(s, u, i + j);
  }

  // ---------------------------------------------------------------------
  // Decimal digits, int(...) and str(...)
  // ---------------------------------------------------------------------

  predicate IsDigit(c: char) { '0' <= c <= '9' }

  /** `s.isdigit()` on ASCII digits: non-empty and all digits. */
  predicate IsDigits(s: string) {
    |s| > 0 && forall k :: 0 <= k < |s| ==> IsDigit(s[k])
  }

  predicate AllDigits(s: string) {
    forall k :: 0 <= k < |s| ==> IsDigit(s[k])
  }

  /** `int(s)` of a string of decimal digits. */
  function DigitsValue(s: string): nat
    requires AllDigits(s)
  {
    if s == [] then 0
    else DigitsValue(s[..|s| - 1]) * 10 + (s[|s| - 1] as int - '0' as int)
  }

  function DigitChar(n: nat): (c: char)
    requires n < 10
    ensures IsDigit(c) && c as int - '0' as int == n
  {
    ('0' as int + n) as char
  }

  /** `str(n)` for a non-negative integer: its shortest decimal spelling. */
  function NatToString(n: nat): (r: string)
    ensures IsDigits(r)
  {
    if n < 10 then [DigitChar(n)] else NatToString(n / 10) + [DigitChar(n % 10)]
  }

  /** Reading back the decimal spelling of `n` gives `n`. */
  lemma {:induction false} NatToStringValue(n: nat)
    ensures DigitsValue(NatToString(n)) == n
  {
    var s := NatToString(n);
    if n >= 10 {
      NatToStringValue(n / 10);
      assert s[..|s| - 1] == NatToString(n / 10);
    } else {
      assert s[..|s| - 1] == [];
    }
  }

  /** `str(i)` for any integer: a minus sign before the digits of a negative value. */
  function IntToString(i: int): (r: string)
    ensures |r| > 0
    ensures i < 0 <==> r[0] == '-'
    ensures forall k :: 0 < k < |r| ==> IsDigit(r[k])
  {
    if i < 0 then "-" + NatToString(-i) else NatToString(i)
  }

  /** `int(s)` for an optional minus sign followed by digits. */
  function ParseInt(s: string): int
    requires |s| > 0 && forall k :: 0 < k < |s| ==> IsDigit(s[k])
    requires s[0] == '-' || IsDigit(s[0])
  {
    if s[0] == '-' then 0 - DigitsValue(s[1..]) else DigitsValue(s)
  }

  /** Reading back the spelling of `i` gives `i`. */
  lemma IntToStringValue(i: int)
    ensures ParseInt(IntToString(i)) == i
  {
    var r := IntToString(i);
    if i < 0 {
      assert r[1..] == NatToString(-i);
      NatToStringValue(-i);
    } else {
      NatToStringValue(i);
    }
  }

  /** How an f-string renders an optional string: `None` becomes the text "None". */
  function PyStr(s: Option<string>): string {
    match s
    case Some(v) => v
    case None => "None"
  }

  /** Python truthiness of an optional string: present and non-empty. */
  predicate Truthy(s: Option<string>) {
    s.Some? && s.value != ""
  }
}
