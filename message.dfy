/** The framing shared by HTTP/1.1 requests and responses: a start line, one
    `Name: Value` line per header, each line ended by CRLF, a blank line, and
    then the body. */
module Message {
  import opened Text
  import opened OrderedDict

  const HeaderSeparator: string := ": "

  function HeaderLine(h: (string, string)): string {
    h.0 + HeaderSeparator + h.1
  }

  function HeaderLines(hs: Dict<string, string>): (ls: seq<string>)
    ensures |ls| == |hs|
    ensures forall i :: 0 <= i < |hs| ==> ls[i] == HeaderLine(hs[i])
  {
    if hs == [] then [] else [HeaderLine(hs[0])] + HeaderLines(hs[1..])
  }

  /** Each line followed by CRLF, concatenated. */
  function Terminated(ls: seq<string>): string {
    if ls == [] then "" else ls[0] + CRLF + Terminated(ls[1..])
  }

  lemma {:induction false} TerminatedSnoc(ls: seq<string>, l: string)
    ensures Terminated(ls + [l]) == Terminated(ls) + l + CRLF
  {
    if ls != [] {
      assert (ls + [l])[1..] == ls[1..] + [l];
      TerminatedSnoc(ls[1..], l);
    } else {
      assert [l][1..] == [];
    }
  }

  /** The CRLF-terminated block of a longer prefix grows at the end. */
  lemma {:induction false} TerminatedPrefixStep(ls: seq<string>, i: nat)
    requires i < |ls|
    ensures Terminated(ls[..i + 1]) == Terminated(ls[..i]) + ls[i] + CRLF
  {
    assert ls[..i + 1] == ls[..i] + [ls[i]];
    TerminatedSnoc(ls[..i], ls[i]);
  }

  /** The full message text. */
  function Frame(start: string, hs: Dict<string, string>, body: string): string {
    start + CRLF + Terminated(HeaderLines(hs)) + CRLF + body
  }

  /** Headers that survive framing: no line break inside a header line, and
      neither name nor value contains the ": " separator. */
  predicate Framable(hs: Dict<string, string>) {
    forall i :: 0 <= i < |hs| ==>
      !Contains(HeaderLine(hs[i]), CRLF) && !Contains(hs[i].0, HeaderSeparator) && !Contains(hs[i].1, HeaderSeparator)
  }

  lemma {:induction false} TerminatedJoin(ls: seq<string>, y: string)
    ensures Terminated(ls) + CRLF + y == Join(ls + ["", y], CRLF)
  {
    if ls == [] {
      assert ls + ["", y] == ["", y];
      assert ["", y][1..] == [y];
    } else {
      TerminatedJoin(ls[1..], y);
      assert (ls + ["", y])[1..] == ls[1..] + ["", y];
    }
  }

  /** A message is the CRLF-join of its start line, its header lines, the
      blank line and the body. */
  lemma {:induction false} FrameIsJoin(start: string, hs: Dict<string, string>, body: string)
    ensures Frame(start, hs, body) == Join([start] + HeaderLines(hs) + ["", body], CRLF)
  {
    var ls := HeaderLines(hs);
    TerminatedJoin(ls, body);
    assert [start] + ls + ["", body] == [start] + (ls + ["", body]);
    assert ([start] + (ls + ["", body]))[1..] == ls + ["", body];
  }

  /** Splitting a message on CRLF recovers the start line, the header lines
      and the blank line, followed by the pieces of the body. */
  lemma {:induction false} FrameSplit(start: string, hs: Dict<string, string>, body: string)
    requires !Contains(start, CRLF)
    requires forall i :: 0 <= i < |hs| ==> !Contains(HeaderLine(hs[i]), CRLF)
    ensures Split(Frame(start, hs, body), CRLF) == [start] + HeaderLines(hs) + [""] + Split(body, CRLF)
  {
    var ps := [start] + HeaderLines(hs) + ["", body];
    FrameIsJoin(start, hs, body);
    SeparatorsHaveNoBorder();
    assert !Contains("", CRLF);
    forall k | 0 <= k < |ps| - 1 ensures !Contains(ps[k], CRLF) {
      if 0 < k <= |hs| {
        assert ps[k] == HeaderLine(hs[k - 1]);
      }
    }
    SplitJoinFree(ps, CRLF);
    assert ps[..|ps| - 1] == [start] + HeaderLines(hs) + [""];
  }
}
