/** String operations with the meaning JavaScript gives them: `indexOf`,
    `split` with a non-empty string separator, `pop()` of a split result,
    `trim`, `substring(0, n)` and the decimal rendering of a number inside a
    template literal. Strings are sequences of Unicode scalar values. */
module Text {
  import opened Remote

  /** `p` occurs in `s` starting at index `i`. */
  predicate IsAt(s: string, p: string, i: nat) {
    i + |p| <= |s| && s[i..i + |p|] == p
  }


  /** The first occurrence of `p` in `s` at or after `from` (`s.indexOf(p, from)`). */
  function FindFrom(s: string, p: string, from: nat): (r: Option<nat>)
    ensures r.Some? ==> from <= r.value && IsAt(s, p, r.value)
    ensures r.Some? ==> forall j: nat :: from <= j < r.value ==> !IsAt(s, p, j)
    ensures r.None? ==> forall j: nat :: from <= j ==> !IsAt(s, p, j)
    decreases |s| - from
  {
    if from + |p| > |s| then None
    else if IsAt(s, p, from) then Some(from)
    else FindFrom(s, p, from + 1)
  }

  /** `s.indexOf(p)`, with `None` for -1. */
  function Find(s: string, p: string): (r: Option<nat>)
    ensures r.Some? ==> IsAt(s, p, r.value) && forall j: nat :: j < r.value ==> !IsAt(s, p, j)
    ensures r.None? ==> forall j: nat :: !IsAt(s, p, j)
  {
    FindFrom(s, p, 0)
  }

  /** `s.includes(p)`. */
  predicate Contains(s: string, p: string) {
    Find(s, p).Some?
  }

  lemma AtInPrefix(s: string, p: string, n: nat, j: nat)
    requires n <= |s| && IsAt(s[..n], p, j)
    ensures IsAt(s, p, j)
  {
    assert s[..n][j..j + |p|] == s[j..j + |p|];
  }

  lemma CharAt(s: string, p: string, i: nat, d: nat)
    requires IsAt(s, p, i) && d < |p|
    ensures s[i + d] == p[d]
  {
    assert s[i..i + |p|][d] == p[d];
  }

  lemma AtInLongerPrefix(s: string, p: string, n: nat, j: nat)
    requires n <= |s| && j + |p| <= n && IsAt(s, p, j)
    ensures IsAt(s[..n], p, j)
  {
    assert s[..n][j..j + |p|] == s[j..j + |p|];
  }

  lemma AtInSuffix(s: string, p: string, n: nat, j: nat)
    requires n <= |s| && IsAt(s[n..], p, j)
    ensures IsAt(s, p, n + j)
  {
    assert s[n..][j..j + |p|] == s[n + j..n + j + |p|];
  }

  /** `s.split(sep)`: the pieces between the non-overlapping occurrences of
      `sep`, found from left to right. */
  function Split(s: string, sep: string): (parts: seq<string>)
    requires |sep| > 0
    ensures |parts| >= 1
    decreases |s|
  {
    var f := Find(s, sep);
    if f.None? then [s]
    else [s[..f.value]] + Split(s[f.value + |sep|..], sep)
  }

  /** A split has more than one piece exactly when the separator occurs. */
  lemma SplitIsSingle(s: string, sep: string)
    requires |sep| > 0
    ensures |Split(s, sep)| == 1 <==> !Contains(s, sep)
  {
    var f := Find(s, sep);
    if f.Some? {
      assert Split(s, sep) == [s[..f.value]] + Split(s[f.value + |sep|..], sep);
    }
  }

  /** No piece of a split contains the separator. */
  lemma {:induction false} SplitPiecesFree(s: string, sep: string)
    requires |sep| > 0
    ensures forall k :: 0 <= k < |Split(s, sep)| ==> !Contains(Split(s, sep)[k], sep)
    decreases |s|
  {
    var f := Find(s, sep);
    if f.Some? {
      var i := f.value;
      var rest := s[i + |sep|..];
      SplitPiecesFree(rest, sep);
      FirstPieceFree(s, sep, i);
      assert Split(s, sep) == [s[..i]] + Split(rest, sep);
    }
  }

  lemma FirstPieceFree(s: string, sep: string, i: nat)
    requires |sep| > 0 && i <= |s| && forall j: nat :: j < i ==> !IsAt(s, sep, j)
    ensures !Contains(s[..i], sep)
  {
    var f := Find(s[..i], sep);
    if f.Some? {
      AtInPrefix(s, sep, i, f.value);
    }
  }

  /** The inverse of `Split`: the pieces glued back with the separator. */
  function Join(parts: seq<string>, sep: string): string {
    if |parts| == 0 then ""
    else if |parts| == 1 then parts[0]
    else parts[0] + sep + Join(parts[1..], sep)
  }

  function Last<T>(xs: seq<T>): T
    requires |xs| > 0
  {
    xs[|xs| - 1]
  }

  lemma {:induction false} JoinSplit(s: string, sep: string)
    requires |sep| > 0
    ensures Join(Split(s, sep), sep) == s
    decreases |s|
  {
    var f := Find(s, sep);
    if f.Some? {
      var i := f.value;
      var rest := s[i + |sep|..];
      var tail := Split(rest, sep);
      JoinSplit(rest, sep);
      var parts := [s[..i]] + tail;
      assert Split(s, sep) == parts;
      assert parts[1..] == tail;
      assert s == s[..i] + sep + rest by {
        assert s[i..i + |sep|] == sep;
        assert s == s[..i] + s[i..i + |sep|] + rest;
      }
    }
  }

  /** The first piece of a split is a prefix of the string, followed there
      by the separator when the string has more than one piece. */
  lemma FirstPiece(s: string, sep: string)
    requires |sep| > 0
    ensures var first := Split(s, sep)[0];
      && first <= s
      && (|Split(s, sep)| == 1 ==> first == s)
      && (|Split(s, sep)| > 1 ==> IsAt(s, sep, |first|))
  {
    var f := Find(s, sep);
    if f.Some? {
      assert Split(s, sep) == [s[..f.value]] + Split(s[f.value + |sep|..], sep);
    }
  }

  /** The first piece ends at the first occurrence of the separator: no
      occurrence starts inside it. */
  lemma FirstPieceEndsAtFirst(s: string, sep: string)
    requires |sep| > 0
    ensures forall j: nat :: j < |Split(s, sep)[0]| ==> !IsAt(s, sep, j)
  {
    var f := Find(s, sep);
    if f.Some? {
      assert Split(s, sep) == [s[..f.value]] + Split(s[f.value + |sep|..], sep);
    } else {
      assert Split(s, sep) == [s];
    }
  }

  /** The second piece of a split starts right after the first occurrence of
      the separator. */
  lemma SecondPiece(s: string, sep: string)
    requires |sep| > 0 && |Split(s, sep)| > 1
    ensures Find(s, sep).Some?
    ensures var rest := s[Find(s, sep).value + |sep|..];
      Split(s, sep)[1] == Split(rest, sep)[0]
  {
    SplitIsSingle(s, sep);
    var i := Find(s, sep).value;
    assert Split(s, sep) == [s[..i]] + Split(s[i + |sep|..], sep);
  }

  /** The last piece of a split is a suffix of the string. */
  lemma {:induction false} LastPiece(s: string, sep: string)
    requires |sep| > 0
    ensures var last := Last(Split(s, sep));
      |last| <= |s| && last == s[|s| - |last|..]
    decreases |s|
  {
    if |Split(s, sep)| > 1 {
      SplitIsSingle(s, sep);
      var n := SplitStep(s, sep);
      LastPiece(s[n..], sep);
      SuffixOfSuffix(s, n, Last(Split(s[n..], sep)));
    } else {
      FirstPiece(s, sep);
    }
  }

  /** A suffix of `s[n..]` is a suffix of `s`. */
  lemma SuffixOfSuffix(s: string, n: nat, t: string)
    requires n <= |s| && |t| <= |s| - n && t == s[n..][|s| - n - |t|..]
    ensures |t| <= |s| && t == s[|s| - |t|..]
  {
    assert s[n..][|s| - n - |t|..] == s[|s| - |t|..];
  }

  /** Past a first occurrence of the separator, the split goes on with what
      follows it. */
  lemma SplitStep(s: string, sep: string) returns (n: nat)
    requires |sep| > 0 && Find(s, sep).Some?
    ensures n == Find(s, sep).value + |sep| && 0 < n <= |s|
    ensures |Split(s, sep)| == |Split(s[n..], sep)| + 1
    ensures Last(Split(s, sep)) == Last(Split(s[n..], sep))
  {
    var i := Find(s, sep).value;
    n := i + |sep|;
    assert Split(s, sep) == [s[..i]] + Split(s[n..], sep);
  }

  /** A character occurring in `t` occurs in it as a one-character string. */
  lemma CharOccurrence(t: string, c: char)
    requires c in t
    ensures Contains(t, [c])
  {
    var k :| 0 <= k < |t| && t[k] == c;
    assert t[k..k + 1] == [c];
    assert IsAt(t, [c], k);
  }

  /** A character that does not occur in `t` has no occurrence in it as a
      one-character string. */
  lemma NoCharOccurrence(t: string, c: char)
    requires c !in t
    ensures forall j: nat :: !IsAt(t, [c], j)
  {
    forall j: nat | j < |t| ensures !IsAt(t, [c], j) {
      assert t[j..j + 1] == [t[j]];
    }
  }

  lemma CharsBeforeFirst(s: string, c: char, i: nat)
    requires i <= |s| && forall j: nat :: j < i ==> !IsAt(s, [c], j)
    ensures c !in s[..i]
  {
    forall k | 0 <= k < i ensures s[k] != c {
      assert s[k..k + 1] == [s[k]];
      assert !IsAt(s, [c], k);
    }
  }

  /** Splitting on a single character yields one piece more than the number
      of times that character occurs. */
  lemma {:induction false} SplitCharCount(s: string, c: char)
    ensures |Split(s, [c])| == multiset(s)[c] + 1
    decreases |s|
  {
    match Find(s, [c])
    case None =>
      CharsBeforeFirst(s, c, |s|);
      assert s[..|s|] == s;
    case Some(i) =>
      SplitCharCount(s[i + 1..], c);
      var _ := SplitStep(s, [c]);
      CharsBeforeFirst(s, c, i);
      CharAt(s, [c], i, 0);
      CountAround(s, c, i);
  }

  lemma CountAround(s: string, c: char, i: nat)
    requires i < |s| && s[i] == c
    ensures multiset(s)[c] == multiset(s[..i])[c] + 1 + multiset(s[i + 1..])[c]
  {
    assert s == s[..i] + [c] + s[i + 1..];
  }

  /** The position of the last occurrence of `c` in `s`. */
  function LastIndex(s: string, c: char): (i: nat)
    requires c in s
    ensures i < |s| && s[i] == c && c !in s[i + 1..]
  {
    if s[|s| - 1] == c then |s| - 1
    else
      assert c in s[..|s| - 1] by {
        var k :| 0 <= k < |s| && s[k] == c;
        assert s[..|s| - 1][k] == c;
      }
      var i := LastIndex(s[..|s| - 1], c);
      assert s[i + 1..] == s[..|s| - 1][i + 1..] + [s[|s| - 1]];
      i
  }

  /** `pop()` after `split` on a single character: the last piece is what
      follows the last occurrence of that character. */
  lemma {:induction false} LastPieceAfter(u: string, c: char, t: string)
    requires c !in t
    ensures Last(Split(u + [c] + t, [c])) == t
    decreases |u|
  {
    var s := u + [c] + t;
    assert IsAt(s, [c], |u|);
    var i := Find(s, [c]).value;
    var rest := s[i + 1..];
    assert Split(s, [c]) == [s[..i]] + Split(rest, [c]);
    if i == |u| {
      assert rest == t;
      NoCharOccurrence(t, c);
    } else {
      assert rest == u[i + 1..] + [c] + t;
      LastPieceAfter(u[i + 1..], c, t);
    }
  }

  /** The characters `String.prototype.trim` removes: ECMAScript WhiteSpace
      and LineTerminator code points. */
  predicate IsSpace(ch: char) {
    var x := ch as int;
    (9 <= x <= 13) || x == 0x20 || x == 0xA0 || x == 0x1680 || (0x2000 <= x <= 0x200A)
    || x == 0x2028 || x == 0x2029 || x == 0x202F || x == 0x205F || x == 0x3000 || x == 0xFEFF
  }

  function TrimStart(s: string): (r: string)
    ensures |r| <= |s| && r == s[|s| - |r|..]
    ensures r == "" || !IsSpace(r[0])
    ensures forall k :: 0 <= k < |s| - |r| ==> IsSpace(s[k])
  {
    if |s| > 0 && IsSpace(s[0]) then TrimStart(s[1..]) else s
  }

  function TrimEnd(s: string): (r: string)
    ensures |r| <= |s| && r == s[..|r|]
    ensures r == "" || !IsSpace(r[|r| - 1])
    ensures forall k :: |r| <= k < |s| ==> IsSpace(s[k])
  {
    if |s| > 0 && IsSpace(s[|s| - 1]) then TrimEnd(s[..|s| - 1]) else s
  }

  /** `s.trim()`: no white space at either end. */
  function Trim(s: string): (r: string)
    ensures r == "" || (!IsSpace(r[0]) && !IsSpace(r[|r| - 1]))
  {
    TrimEnd(TrimStart(s))
  }

  /** Trimming takes no character that is not in the input. */
  lemma TrimShrinks(s: string)
    ensures multiset(Trim(s)) <= multiset(s)
  {
    var a := TrimStart(s);
    var r := TrimEnd(a);
    SuffixShrinks(s, |s| - |a|);
    PrefixShrinks(a, |r|);
    assert multiset(r) <= multiset(a) <= multiset(s);
  }

  lemma SuffixShrinks(s: string, i: nat)
    requires i <= |s|
    ensures multiset(s[i..]) <= multiset(s)
  {
    assert s == s[..i] + s[i..];
  }

  lemma PrefixShrinks(s: string, j: nat)
    requires j <= |s|
    ensures multiset(s[..j]) <= multiset(s)
  {
    assert s == s[..j] + s[j..];
  }

  /** Trimming removes only white space: every other character stays. */
  lemma TrimKeeps(s: string)
    ensures forall k :: 0 <= k < |s| && !IsSpace(s[k]) ==> s[k] in Trim(s)
  {
    forall k | 0 <= k < |s| && !IsSpace(s[k])
      ensures s[k] in Trim(s)
    {
      KeptByTrim(s, k);
    }
  }

  lemma KeptByTrim(s: string, k: nat)
    requires k < |s| && !IsSpace(s[k])
    ensures s[k] in TrimEnd(TrimStart(s))
  {
    var a := TrimStart(s);
    KeptByTrimStart(s, k);
    var j := k - (|s| - |a|);
    KeptByTrimEnd(a, j);
  }

  lemma KeptByTrimStart(s: string, k: nat)
    requires k < |s| && !IsSpace(s[k])
    ensures |s| - |TrimStart(s)| <= k && TrimStart(s)[k - (|s| - |TrimStart(s)|)] == s[k]
  {
  }

  lemma KeptByTrimEnd(a: string, j: nat)
    requires j < |a| && !IsSpace(a[j])
    ensures j < |TrimEnd(a)| && TrimEnd(a)[j] == a[j]
  {
  }

  /** `s.substring(0, n)` for a non-negative `n`. */
  function Prefix(s: string, n: nat): (r: string)
    ensures |r| <= n && r <= s
    ensures |s| <= n ==> r == s
    ensures |s| > n ==> |r| == n
  {
    if |s| <= n then s else s[..n]
  }

  predicate IsDigit(ch: char) {
    '0' as int <= ch as int <= '9' as int
  }

  function DigitChar(d: nat): (ch: char)
    requires d < 10
  {
    ('0' as int + d) as char
  }

  /** The decimal rendering of a non-negative integer, as `${n}` writes it:
      digits only, no leading zero except for zero itself. */
  function Decimal(n: nat): (r: string)
    ensures |r| >= 1 && forall k :: 0 <= k < |r| ==> IsDigit(r[k])
    ensures r[0] == '0' ==> n == 0
  {
    if n < 10 then [DigitChar(n)] else Decimal(n / 10) + [DigitChar(n % 10)]
  }

  /** Reading a string of digits back as a number. */
  function DecimalValue(s: string): nat
    requires forall k :: 0 <= k < |s| ==> IsDigit(s[k])
  {
    if s == [] then 0
    else
      var d := s[|s| - 1];
      assert IsDigit(d);
      DecimalValue(s[..|s| - 1]) * 10 + (d as int - '0' as int)
  }

  lemma {:induction false} DecimalRoundTrip(n: nat)
    ensures DecimalValue(Decimal(n)) == n
  {
    var r := Decimal(n);
    if n >= 10 {
      DecimalRoundTrip(n / 10);
      assert r[..|r| - 1] == Decimal(n / 10);
    }
  }

  /** Distinct numbers render as distinct strings. */
  lemma DecimalInjective(m: nat, n: nat)
    requires Decimal(m) == Decimal(n)
    ensures m == n
  {
    DecimalRoundTrip(m);
    DecimalRoundTrip(n);
  }
}
