/** Text primitives the server relies on, with the semantics of the
    corresponding Python string operations on ASCII text: `str.split` with a
    non-empty separator, `str.startswith`, `str.lower` and `str(n)` for a
    non-negative integer. */
module Text {
  import opened Results

  const CRLF: string := "\r\n"

  /** `sep` occurs in `s` starting at index `i`. */
  predicate OccursAt(s: string, sep: string, i: int) {
    0 <= i && i + |sep| <= |s| && s[i..i + |sep|] == sep
  }

  predicate Contains(s: string, sep: string) {
    exists i :: 0 <= i <= |s| && OccursAt(s, sep, i)
  }

  predicate StartsWith(s: string, prefix: string) {
    |prefix| <= |s| && s[..|prefix|] == prefix
  }

  lemma {:induction false} OccursAtTail(s: string, sep: string, j: nat)
    requires |s| > 0
    ensures OccursAt(s, sep, j + 1) <==> OccursAt(s[1..], sep, j)
  {
    if j + 1 + |sep| <= |s| {
      assert s[1..][j..j + |sep|] == s[j + 1..j + 1 + |sep|];
    }
  }

  /** The leftmost occurrence of `sep` in `s`, as `str.find` computes it;
      `FindFirstSpec` states what it finds. */
  function FindFirst(s: string, sep: string): (r: Option<nat>)
    requires |sep| > 0
    ensures r.Some? ==> r.value + |sep| <= |s|
    decreases |s|
  {
    if |s| < |sep| then None
    else if s[..|sep|] == sep then Some(0)
    else
      match FindFirst(s[1..], sep)
      case None => None
      case Some(i) => Some(i + 1)
  }

  /** `FindFirst` finds an occurrence, there is none before it, and it finds
      nothing exactly when the separator does not occur. */
  lemma {:induction false} FindFirstSpec(s: string, sep: string)
    requires |sep| > 0
    ensures FindFirst(s, sep).Some? ==> OccursAt(s, sep, FindFirst(s, sep).value)
    ensures FindFirst(s, sep).Some? ==> forall j :: 0 <= j < FindFirst(s, sep).value ==> !OccursAt(s, sep, j)
    ensures FindFirst(s, sep).None? <==> !Contains(s, sep)
    decreases |s|
  {
    if |s| < |sep| {
    } else if s[..|sep|] == sep {
      assert OccursAt(s, sep, 0);
    } else {
      FindFirstSpec(s[1..], sep);
      assert !OccursAt(s, sep, 0);
      assert forall j: nat :: OccursAt(s, sep, j + 1) <==> OccursAt(s[1..], sep, j) by {
        forall j: nat ensures OccursAt(s, sep, j + 1) <==> OccursAt(s[1..], sep, j) {
          OccursAtTail(s, sep, j);
        }
      }
      match FindFirst(s[1..], sep)
      case None =>
        assert forall j :: 0 < j ==> !OccursAt(s, sep, j) by {
          forall j | 0 < j ensures !OccursAt(s, sep, j) {
            assert !OccursAt(s[1..], sep, j - 1);
          }
        }
      case Some(i) =>
        assert forall j :: 0 < j < i + 1 ==> !OccursAt(s, sep, j) by {
          forall j | 0 < j < i + 1 ensures !OccursAt(s, sep, j) {
            assert !OccursAt(s[1..], sep, j - 1);
          }
        }
    }
  }

  /** An occurrence with none before it is the one `FindFirst` finds. */
  lemma {:induction false} FindFirstAt(s: string, sep: string, i: nat)
    requires |sep| > 0 && OccursAt(s, sep, i)
    requires forall j :: 0 <= j < i ==> !OccursAt(s, sep, j)
    ensures FindFirst(s, sep) == Some(i)
  {
    FindFirstSpec(s, sep);
    assert Contains(s, sep);
  }

  /** Python's `s.split(sep)` for a non-empty separator: the pieces between the
      non-overlapping occurrences of `sep`, scanning from the left. */
  function Split(s: string, sep: string): (parts: seq<string>)
    requires |sep| > 0
    ensures |parts| >= 1
    decreases |s|
  {
    match FindFirst(s, sep)
    case None => [s]
    case Some(i) => [s[..i]] + Split(s[i + |sep|..], sep)
  }

  /** Python's `sep.join(parts)`. */
  function Join(parts: seq<string>, sep: string): string
  {
    if |parts| == 0 then ""
    else if |parts| == 1 then parts[0]
    else parts[0] + sep + Join(parts[1..], sep)
  }

  lemma {:induction false} JoinCons(x: string, tail: seq<string>, sep: string)
    requires |tail| > 0
    ensures Join([x] + tail, sep) == x + sep + Join(tail, sep)
  {
    assert ([x] + tail)[1..] == tail;
  }

  /** One step of `Split`: the piece before the first occurrence, then the
      split of what follows it. */
  lemma {:induction false} SplitUnfold(s: string, sep: string)
    requires |sep| > 0 && FindFirst(s, sep).Some?
    ensures var i := FindFirst(s, sep).value;
      i + |sep| <= |s| && Split(s, sep) == [s[..i]] + Split(s[i + |sep|..], sep)
  {
  }

  /** Cutting the text around an occurrence of the separator and gluing it
      back gives the text. */
  lemma {:induction false} Recompose(s: string, sep: string, i: nat)
    requires OccursAt(s, sep, i)
    ensures s[..i] + sep + s[i + |sep|..] == s
  {
    assert s == s[..i] + s[i..i + |sep|] + s[i + |sep|..];
  }

  /** Splitting loses nothing: joining the pieces gives the text back. */
  lemma {:induction false} SplitJoin(s: string, sep: string)
    requires |sep| > 0
    ensures Join(Split(s, sep), sep) == s
    decreases |s|
  {
    var f := FindFirst(s, sep);
    if f.Some? {
      var i := f.value;
      var rest := s[i + |sep|..];
      SplitUnfold(s, sep);
      FindFirstSpec(s, sep);
      SplitJoin(rest, sep);
      JoinCons(s[..i], Split(rest, sep), sep);
      Recompose(s, sep, i);
    }
  }

  /** The text before the first occurrence of the separator is free of it. */
  lemma {:induction false} BeforeFirstFree(s: string, sep: string)
    requires |sep| > 0 && FindFirst(s, sep).Some?
    ensures !Contains(s[..FindFirst(s, sep).value], sep)
  {
    var i := FindFirst(s, sep).value;
    FindFirstSpec(s, sep);
    forall j | 0 <= j <= i && OccursAt(s[..i], sep, j) ensures false {
      assert s[..i][j..j + |sep|] == s[j..j + |sep|];
      assert OccursAt(s, sep, j);
    }
  }

  /** No piece of a split contains the separator. */
  lemma {:induction false} SplitPiecesFree(s: string, sep: string)
    requires |sep| > 0
    ensures forall k :: 0 <= k < |Split(s, sep)| ==> !Contains(Split(s, sep)[k], sep)
    decreases |s|
  {
    match FindFirst(s, sep)
    case None =>
      FindFirstSpec(s, sep);
      assert Split(s, sep) == [s];
    case Some(i) =>
      var rest := s[i + |sep|..];
      var tail := Split(rest, sep);
      SplitPiecesFree(rest, sep);
      BeforeFirstFree(s, sep);
      var ps := [s[..i]] + tail;
      assert Split(s, sep) == ps;
      forall k | 0 <= k < |ps| ensures !Contains(ps[k], sep) {
        if k > 0 {
          assert ps[k] == tail[k - 1];
        }
      }
  }

  /** A separator that Contains: splitting on it yields at least two pieces. */
  lemma {:induction false} SplitContains(s: string, sep: string)
    requires |sep| > 0 && Contains(s, sep)
    ensures |Split(s, sep)| >= 2
  {
    FindFirstSpec(s, sep);
  }

  lemma {:induction false} SplitFree(s: string, sep: string)
    requires |sep| > 0 && !Contains(s, sep)
    ensures Split(s, sep) == [s]
  {
    FindFirstSpec(s, sep);
  }

  /** `sep[k..] == sep[..|sep| - k]` for a proper, non-empty overlap `k`:
      the separator could overlap a shifted copy of itself. */
  predicate BorderAt(sep: string, k: int) {
    0 < k < |sep| && sep[k..] == sep[..|sep| - k]
  }

  /** A separator that cannot overlap itself, such as "\r\n", ": " and " ". */
  predicate NoBorder(sep: string) {
    forall k :: 0 <= k <= |sep| ==> !BorderAt(sep, k)
  }

  lemma SeparatorsHaveNoBorder()
    ensures NoBorder(CRLF) && NoBorder(": ") && NoBorder(" ")
  {
    forall k ensures !BorderAt(CRLF, k) && !BorderAt(": ", k) {
      if k == 1 {
        assert CRLF[1..][0] != CRLF[..1][0];
        assert ": "[1..][0] != ": "[..1][0];
      }
    }
  }

  /** The first occurrence of a border-free separator after a piece that does
      not contain it is right after that piece. */
  lemma {:induction false} SplitFirst(a: string, b: string, sep: string)
    requires |sep| > 0 && NoBorder(sep) && !Contains(a, sep)
    ensures Split(a + sep + b, sep) == [a] + Split(b, sep)
  {
    var s := a + sep + b;
    assert s[|a|..|a| + |sep|] == sep;
    assert OccursAt(s, sep, |a|);
    forall j | 0 <= j < |a| ensures !OccursAt(s, sep, j) {
      if j + |sep| <= |a| {
        assert s[j..j + |sep|] == a[j..j + |sep|];
        assert !OccursAt(a, sep, j);
      } else {
        var k := |a| - j;
        assert s[j..j + |sep|] == a[j..] + sep[..|sep| - k];
        assert (a[j..] + sep[..|sep| - k])[k..] == sep[..|sep| - k];
        assert !BorderAt(sep, k);
      }
    }
    FindFirstAt(s, sep, |a|);
    assert s[..|a|] == a;
    assert s[|a| + |sep|..] == b;
  }

  /** Splitting a join whose first piece is separator-free peels that piece off. */
  lemma {:induction false} SplitJoinCons(x: string, tl: seq<string>, sep: string)
    requires |sep| > 0 && NoBorder(sep) && |tl| > 0 && !Contains(x, sep)
    ensures Split(Join([x] + tl, sep), sep) == [x] + Split(Join(tl, sep), sep)
  {
    JoinCons(x, tl, sep);
    SplitFirst(x, Join(tl, sep), sep);
  }

  lemma {:induction false} AppendAssoc<T>(a: seq<T>, b: seq<T>, c: seq<T>)
    ensures a + (b + c) == (a + b) + c
  {
  }

  lemma {:induction false} ConsInit<T>(xs: seq<T>)
    requires |xs| > 1
    ensures xs[..|xs| - 1] == [xs[0]] + xs[1..][..|xs| - 2]
    ensures xs[1..][|xs| - 2] == xs[|xs| - 1]
  {
  }

  /** Joining pieces of which all but the last are separator-free and
      splitting again gives those pieces back, followed by the split of the
      last one. */
  lemma {:induction false} SplitJoinFree(ps: seq<string>, sep: string)
    requires |sep| > 0 && NoBorder(sep) && |ps| > 0
    requires forall k :: 0 <= k < |ps| - 1 ==> !Contains(ps[k], sep)
    ensures Split(Join(ps, sep), sep) == ps[..|ps| - 1] + Split(ps[|ps| - 1], sep)
    decreases |ps|
  {
    if |ps| > 1 {
      var tl := ps[1..];
      forall k | 0 <= k < |tl| - 1 ensures !Contains(tl[k], sep) {
        assert tl[k] == ps[k + 1];
      }
      SplitJoinFree(tl, sep);
      assert ps == [ps[0]] + tl;
      SplitJoinCons(ps[0], tl, sep);
      ConsInit(ps);
      AppendAssoc([ps[0]], tl[..|tl| - 1], Split(tl[|tl| - 1], sep));
    } else {
      assert ps[..0] == [];
    }
  }

  /** `Split` inverts `Join` on separator-free pieces. */
  lemma {:induction false} JoinSplit(ps: seq<string>, sep: string)
    requires |sep| > 0 && NoBorder(sep) && |ps| > 0
    requires forall k :: 0 <= k < |ps| ==> !Contains(ps[k], sep)
    ensures Split(Join(ps, sep), sep) == ps
  {
    if |ps| == 1 {
      SplitFree(ps[0], sep);
    } else {
      var tl := ps[1..];
      forall k | 0 <= k < |tl| ensures !Contains(tl[k], sep) {
        assert tl[k] == ps[k + 1];
      }
      JoinSplit(tl, sep);
      assert ps == [ps[0]] + tl;
      SplitJoinCons(ps[0], tl, sep);
    }
  }

  /** A character of `sep` that `s` lacks keeps `sep` out of `s`. */
  lemma {:induction false} MissingChar(s: string, sep: string, c: char)
    requires c in sep && c !in s
    ensures !Contains(s, sep)
  {
  }

  predicate IsUpper(c: char) { 'A' <= c <= 'Z' }

  function LowerChar(c: char): char {
    if IsUpper(c) then (c as int + 32) as char else c
  }

  /** `str.lower` restricted to ASCII: upper-case letters become lower-case,
      every other character is kept. */
  function Lower(s: string): (r: string)
    ensures |r| == |s|
    ensures forall i :: 0 <= i < |s| ==> !IsUpper(r[i])
    ensures forall i :: 0 <= i < |s| && !IsUpper(s[i]) ==> r[i] == s[i]
    ensures forall i :: 0 <= i < |s| && IsUpper(s[i]) ==> r[i] as int == s[i] as int + 32
  {
    seq(|s|, i requires 0 <= i < |s| => LowerChar(s[i]))
  }

  predicate IsDigit(c: char) { '0' <= c <= '9' }

  /** `str(n)` for a non-negative integer: its decimal digits, no leading zero. */
  function NatToDecimal(n: nat): (s: string)
    ensures |s| >= 1
    ensures forall i :: 0 <= i < |s| ==> IsDigit(s[i])
    ensures |s| > 1 ==> s[0] != '0'
  {
    if n < 10 then [('0' as int + n) as char]
    else NatToDecimal(n / 10) + [('0' as int + n % 10) as char]
  }

  /** The number a string of decimal digits denotes. */
  function DecimalValue(s: string): nat
    requires forall i :: 0 <= i < |s| ==> IsDigit(s[i])
  {
    if s == [] then 0
    else
      assert IsDigit(s[|s| - 1]);
      DecimalValue(s[..|s| - 1]) * 10 + (s[|s| - 1] as int - '0' as int)
  }

  /** Reading back the decimal form of `n` gives `n`. */
  lemma {:induction false} DecimalRoundTrip(n: nat)
    ensures DecimalValue(NatToDecimal(n)) == n
  {
    if n >= 10 {
      DecimalRoundTrip(n / 10);
      var s := NatToDecimal(n);
      assert s[..|s| - 1] == NatToDecimal(n / 10);
    }
  }
}
