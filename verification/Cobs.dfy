/**
 Consistent overhead byte stuffing (Cheshire and Baker), which frames the blocks of the
 journal so that a zero byte occurs at the end of a block and nowhere else.  The source
 takes it from a crate; both of the decoders it calls are here: one over a whole block
 (`Unstuff`) and one fed byte by byte (`Feed`).
 */
module Cobs {
  import opened Bytes

  ghost predicate NoZero(bytes: seq<byte>) {
    forall i :: 0 <= i < |bytes| ==> bytes[i] != 0
  }

  /** The stuffed form of `group + data`, where `group` is the part of a group collected so far. */
  function Stuff(group: seq<byte>, data: seq<byte>): (enc: seq<byte>)
    requires |group| < 254 && NoZero(group)
    ensures enc != [] && NoZero(enc)
    decreases |data|
  {
    if data == [] then [|group| + 1] + group
    else if data[0] == 0 then [|group| + 1] + (group + Stuff([], data[1..]))
    else if |group| == 253 then [255] + (group + [data[0]] + Stuff([], data[1..]))
    else Stuff(group + [data[0]], data[1..])
  }

  // ---------------------------------------------------------------- a whole block at once

  /** The data of a block that ends in its sentinel zero, group by group. */
  function Unstuff(enc: seq<byte>): Option<seq<byte>>
    decreases |enc|
  {
    if enc == [] || enc[0] == 0 || |enc| <= enc[0] then None
    else
      var code := enc[0];
      var group, rest := enc[1..code], enc[code..];
      if rest[0] == 0 then Some(group)
      else
        match Unstuff(rest)
        case None => None
        case Some(tail) => Some(group + Gap(code) + tail)
  }

  /** What a finished group contributes besides its own bytes. */
  function Gap(code: byte): seq<byte> {
    if code == 255 then [] else [0]
  }

  lemma Regroup(code: byte, group: seq<byte>, block: seq<byte>, tail: seq<byte>)
    ensures [code] + (group + block) + tail == [code] + (group + (block + tail))
  {
  }

  lemma UnstuffGroup(code: byte, group: seq<byte>, rest: seq<byte>)
    requires 0 < code && |group| == code - 1 && rest != []
    ensures Unstuff([code] + (group + rest)) ==
            if rest[0] == 0 then Some(group)
            else match Unstuff(rest)
                 case None => None
                 case Some(tail) => Some(group + Gap(code) + tail)
  {
    var enc := [code] + (group + rest);
    assert enc[1..code] == group && enc[code..] == rest;
  }

  /** The step shared by the two ways a group ends: at a zero, and when it is full. */
  lemma {:induction false} UnstuffFlush(code: byte, group: seq<byte>, rest: seq<byte>)
    requires 0 < code && |group| == code - 1
    ensures Unstuff([code] + (group + Stuff([], rest)) + [0]) == Some(group + Gap(code) + rest)
    decreases |rest|, 1
  {
    StuffRoundTrip([], rest);
    assert [] + rest == rest;
    UnstuffGroup(code, group, Stuff([], rest) + [0]);
    Regroup(code, group, Stuff([], rest), [0]);
  }

  lemma {:induction false} StuffRoundTrip(group: seq<byte>, data: seq<byte>)
    requires |group| < 254 && NoZero(group)
    ensures Unstuff(Stuff(group, data) + [0]) == Some(group + data)
    decreases |data|, 0
  {
    if data == [] {
      UnstuffGroup(|group| + 1, group, [0]);
      assert [|group| + 1] + group + [0] == [|group| + 1] + (group + [0]);
      assert group + data == group;
    } else if data[0] == 0 {
      UnstuffFlush(|group| + 1, group, data[1..]);
      assert group + [0] + data[1..] == group + data;
    } else if |group| == 253 {
      UnstuffFlush(255, group + [data[0]], data[1..]);
      assert (group + [data[0]]) + [] + data[1..] == group + data;
    } else {
      StuffRoundTrip(group + [data[0]], data[1..]);
      assert (group + [data[0]]) + data[1..] == group + data;
    }
  }

  // ---------------------------------------------------------------- one byte at a time

  datatype State = Idle | Grab(left: nat) | GrabChain(left: nat)

  datatype Event = NoData | DataStart | DataContinue(out: byte) | DataComplete | Corrupt

  /** One byte into the decoder (`DecoderState::feed`). */
  function Feed(s: State, b: byte): (State, Event) {
    var start := if b == 255 then GrabChain(254) else Grab(if b == 0 then 0 else b - 1);
    match s
    case Idle => if b == 0 then (Idle, NoData) else (start, DataStart)
    case Grab(left) =>
      if left == 0 then
        if b == 0 then (Idle, DataComplete) else (start, DataContinue(0))
      else if b == 0 then (s, Corrupt) else (Grab(left - 1), DataContinue(b))
    case GrabChain(left) =>
      if left == 0 then
        if b == 0 then (Idle, DataComplete) else (start, NoData)
      else if b == 0 then (s, Corrupt) else (GrabChain(left - 1), DataContinue(b))
  }

  datatype Outcome = Outcome(state: State, out: seq<byte>, finished: bool, corrupt: bool)

  /** Feeding bytes until the block is complete, is found corrupt, or the bytes run out. */
  function Run(s: State, bytes: seq<byte>): Outcome
    decreases |bytes|
  {
    if bytes == [] then Outcome(s, [], false, false)
    else
      var (s', event) := Feed(s, bytes[0]);
      match event
      case DataComplete => Outcome(s', [], true, false)
      case Corrupt => Outcome(s', [], false, true)
      case DataContinue(b) => var r := Run(s', bytes[1..]); r.(out := [b] + r.out)
      case _ => Run(s', bytes[1..])
  }

  /** Cutting the input anywhere changes nothing. */
  lemma {:induction false} RunConcat(s: State, a: seq<byte>, b: seq<byte>)
    ensures var r := Run(s, a);
            Run(s, a + b) == if r.finished || r.corrupt then r
                             else var t := Run(r.state, b); t.(out := r.out + t.out)
    decreases |a|
  {
    if a == [] {
      assert a + b == b;
      assert [] + Run(s, b).out == Run(s, b).out;
    } else {
      assert (a + b)[1..] == a[1..] + b;
      RunConcat(Feed(s, a[0]).0, a[1..], b);
    }
  }

  lemma {:induction false} FinishNeedsZero(s: State, bytes: seq<byte>)
    requires NoZero(bytes)
    ensures !Run(s, bytes).finished
    decreases |bytes|
  {
    if bytes != [] {
      FinishNeedsZero(Feed(s, bytes[0]).0, bytes[1..]);
    }
  }

  lemma {:induction false} RunGroup(s: State, group: seq<byte>)
    requires NoZero(group) && !s.Idle? && s.left == |group|
    ensures Run(s, group) == Outcome(if s.Grab? then Grab(0) else GrabChain(0), group, false, false)
    decreases |group|
  {
    if group != [] {
      RunGroup(Feed(s, group[0]).0, group[1..]);
    }
  }

  /** The zero that a decoder standing at the end of a short group owes to what follows. */
  function Owed(s: State): seq<byte> {
    if s == Grab(0) then [0] else []
  }

  ghost predicate AtGroupStart(s: State) {
    s in {Idle, Grab(0), GrabChain(0)}
  }

  function AfterGroup(code: byte): State {
    if code == 255 then GrabChain(0) else Grab(0)
  }

  function StartGroup(code: byte): State
    requires 0 < code
  {
    if code == 255 then GrabChain(254) else Grab(code - 1)
  }

  lemma RunCode(s: State, code: byte, more: seq<byte>)
    requires AtGroupStart(s) && 0 < code
    ensures var r := Run(StartGroup(code), more);
            Run(s, [code] + more) == r.(out := Owed(s) + r.out)
  {
    assert ([code] + more)[1..] == more;
    var r := Run(StartGroup(code), more);
    assert [] + r.out == r.out;
  }

  /** One whole group, entered from the start of a block or from the end of another group. */
  lemma RunWholeGroup(s: State, code: byte, group: seq<byte>, rest: seq<byte>)
    requires AtGroupStart(s) && NoZero(group) && 0 < code && |group| == code - 1
    ensures var r := Run(AfterGroup(code), rest);
            Run(s, [code] + (group + rest)) == r.(out := Owed(s) + group + r.out)
  {
    hide Run;
    RunCode(s, code, group + rest);
    RunGroup(StartGroup(code), group);
    RunConcat(StartGroup(code), group, rest);
    var r := Run(AfterGroup(code), rest);
    assert Owed(s) + (group + r.out) == Owed(s) + group + r.out;
  }

  /** From `s` the decoder completes the block having put out exactly `out`. */
  ghost predicate Yields(s: State, framed: seq<byte>, out: seq<byte>) {
    Run(s, framed) == Outcome(Idle, out, true, false)
  }

  lemma {:induction false} RunStuffed(s: State, group: seq<byte>, data: seq<byte>, tail: seq<byte>)
    requires |group| < 254 && NoZero(group) && AtGroupStart(s)
    ensures Yields(s, Stuff(group, data) + ([0] + tail), Owed(s) + (group + data))
    decreases |data|, 0
  {
    if data == [] {
      RunWholeGroup(s, |group| + 1, group, [0] + tail);
      assert [|group| + 1] + group + ([0] + tail) == [|group| + 1] + (group + ([0] + tail));
      assert Owed(s) + group + [] == Owed(s) + (group + data);
    } else if data[0] == 0 {
      RunFlush(s, |group| + 1, group, data[1..], tail);
      assert group + (Gap(|group| + 1) + data[1..]) == group + data;
    } else if |group| == 253 {
      RunFlush(s, 255, group + [data[0]], data[1..], tail);
      assert (group + [data[0]]) + (Gap(255) + data[1..]) == group + data;
    } else {
      RunStuffed(s, group + [data[0]], data[1..], tail);
      assert (group + [data[0]]) + data[1..] == group + data;
    }
  }

  lemma {:induction false} RunFlush(s: State, code: byte, group: seq<byte>, rest: seq<byte>, tail: seq<byte>)
    requires AtGroupStart(s) && NoZero(group) && 0 < code && |group| == code - 1
    ensures Yields(s, [code] + (group + Stuff([], rest)) + ([0] + tail), Owed(s) + (group + (Gap(code) + rest)))
    decreases |rest|, 1
  {
    hide Run;
    RunStuffed(AfterGroup(code), [], rest, tail);
    RunWholeGroup(s, code, group, Stuff([], rest) + ([0] + tail));
    Regroup(code, group, Stuff([], rest), [0] + tail);
    assert Owed(s) + group + (Owed(AfterGroup(code)) + ([] + rest)) == Owed(s) + (group + (Gap(code) + rest));
  }

  /**
   Feeding any proper prefix of a framed block yields a prefix of the data and neither
   completes nor fails; feeding what remains from there yields the rest and completes.
   */
  lemma FeedInPieces(data: seq<byte>, k: nat, tail: seq<byte>)
    requires k <= |Stuff([], data)|
    ensures var framed := Stuff([], data) + [0] + tail;
            var first := Run(Idle, framed[..k]);
            var second := Run(first.state, framed[k..]);
            && !first.finished && !first.corrupt
            && second.finished && !second.corrupt
            && first.out + second.out == data
  {
    var enc := Stuff([], data);
    var framed := enc + [0] + tail;
    RunStuffed(Idle, [], data, tail);
    RunConcat(Idle, framed[..k], framed[k..]);
    FrameCut(enc, tail, k);
    FinishNeedsZero(Idle, framed[..k]);
    hide *;
    assert [] + ([] + data) == data;
  }

  lemma FrameCut(enc: seq<byte>, tail: seq<byte>, k: nat)
    requires k <= |enc|
    ensures var framed := enc + [0] + tail;
            framed[..k] + framed[k..] == framed == enc + ([0] + tail) && framed[..k] == enc[..k]
  {
  }
}
