/**
 Zero-delimited frames on a serial line. The add-on and the bridge each collect what a read brings,
 cut off whatever ends in a zero, decode it, and drop what does not decode.
 */
module Framing {
  import opened Seqs
  import opened Options
  import opened Octets
  import opened Cobs

  /** Where the first zero is, or the length if there is none. */
  function FirstZero(s: octets): (z: nat)
    ensures z <= |s| && (forall i :: 0 <= i < z ==> s[i] != 0) && (z < |s| ==> s[z] == 0)
  {
    if s == [] || s[0] == 0 then 0 else FirstZero(s[1..]) + 1
  }

  predicate HasZero(s: octets) { FirstZero(s) < |s| }

  /** The stretches of `s` that a zero ends. */
  function Segments(s: octets): seq<octets>
    decreases |s|
  {
    if HasZero(s) then [s[..FirstZero(s)]] + Segments(s[FirstZero(s) + 1..]) else []
  }

  /** What follows the last zero. */
  function Tail(s: octets): octets
    decreases |s|
  {
    if HasZero(s) then Tail(s[FirstZero(s) + 1..]) else s
  }

  /** The frame in a segment; an empty segment is no frame. */
  function Frame(segment: octets): Option<octets> { Decoded(segment) }

  /** The frames among segments, in order; what does not decode is dropped. */
  function Frames(segments: seq<octets>): seq<octets> {
    if segments == [] then []
    else (if Frame(segments[0]).Some? then [Frame(segments[0]).value] else []) + Frames(segments[1..])
  }

  function Delivered(s: octets): seq<octets> { Frames(Segments(s)) }

  /** What a reader that keeps `buf` from earlier delivers over a sequence of reads. */
  function DeliveredByReads(buf: octets, parts: seq<octets>): seq<octets>
    decreases |parts|
  {
    if parts == [] then [] else Delivered(buf + parts[0]) + DeliveredByReads(Tail(buf + parts[0]), parts[1..])
  }

  lemma FirstZeroIs(segment: octets, rest: octets)
    requires NoZero(segment)
    ensures FirstZero(segment + [0] + rest) == |segment|
  {
    var s := segment + [0] + rest;
    assert forall i :: 0 <= i < |segment| ==> s[i] == segment[i];
    assert s[|segment|] == 0;
  }

  lemma CutAtZero(s: octets)
    requires HasZero(s)
    ensures s == s[..FirstZero(s)] + [0] + s[FirstZero(s) + 1..] && NoZero(s[..FirstZero(s)])
  {
  }

  /** The first zero cuts off the first segment. */
  lemma SegmentFirst(segment: octets, rest: octets)
    requires NoZero(segment)
    ensures HasZero(segment + [0] + rest)
    ensures Segments(segment + [0] + rest) == [segment] + Segments(rest)
    ensures Tail(segment + [0] + rest) == Tail(rest)
  {
    var s := segment + [0] + rest;
    FirstZeroIs(segment, rest);
    assert s[..|segment|] == segment && s[|segment| + 1..] == rest;
  }

  lemma {:induction false} TailHasNoZero(s: octets)
    ensures NoZero(Tail(s)) && !HasZero(Tail(s)) && |Tail(s)| <= |s|
    decreases |s|
  {
    if HasZero(s) { TailHasNoZero(s[FirstZero(s) + 1..]); }
  }

  /** Cutting a stream in two: the second part's frames begin with what the first part left over. */
  lemma {:induction false} SegmentsAppend(a: octets, b: octets)
    ensures Segments(a + b) == Segments(a) + Segments(Tail(a) + b)
    ensures Tail(a + b) == Tail(Tail(a) + b)
    decreases |a|
  {
    if HasZero(a) {
      var segment, rest := a[..FirstZero(a)], a[FirstZero(a) + 1..];
      SegmentsAppend(rest, b);
      CutAtZero(a);
      AppendAfterFirst(segment, rest, b);
    }
  }

  lemma AppendAfterFirst(segment: octets, rest: octets, b: octets)
    requires NoZero(segment)
    requires Segments(rest + b) == Segments(rest) + Segments(Tail(rest) + b) && Tail(rest + b) == Tail(Tail(rest) + b)
    ensures var a := segment + [0] + rest;
            Segments(a + b) == Segments(a) + Segments(Tail(a) + b) && Tail(a + b) == Tail(Tail(a) + b)
  {
    SegmentFirst(segment, rest);
    SegmentFirst(segment, rest + b);
    Assoc(segment + [0], rest, b);
    Assoc([segment], Segments(rest), Segments(Tail(rest) + b));
  }

  lemma {:induction false} FramesAppend(a: seq<octets>, b: seq<octets>)
    ensures Frames(a + b) == Frames(a) + Frames(b)
  {
    if a == [] {
      assert a + b == b;
    } else {
      AppendFirst(a, b);
      FramesAppend(a[1..], b);
      Assoc(if Frame(a[0]).Some? then [Frame(a[0]).value] else [], Frames(a[1..]), Frames(b));
    }
  }

  /** How the reads cut the stream makes no difference. */
  lemma {:induction false} ReadsDoNotMatter(buf: octets, parts: seq<octets>)
    requires !HasZero(buf)
    ensures DeliveredByReads(buf, parts) == Delivered(buf + Flatten(parts))
    decreases |parts|
  {
    if parts == [] {
      assert buf + [] == buf;
    } else {
      var first, others := buf + parts[0], Flatten(parts[1..]);
      TailHasNoZero(first);
      ReadsDoNotMatter(Tail(first), parts[1..]);
      SegmentsAppend(first, others);
      FramesAppend(Segments(first), Segments(Tail(first) + others));
      assert buf + Flatten(parts) == first + others;
    }
  }

  /** From an empty buffer, the frames delivered are a function of the bytes received and of nothing else. */
  lemma OnlyTheBytesMatter(parts: seq<octets>)
    ensures DeliveredByReads([], parts) == Delivered(Flatten(parts))
  {
    ReadsDoNotMatter([], parts);
    assert [] + Flatten(parts) == Flatten(parts);
  }

  /** What a sender puts on the line for some payloads. */
  function Wire(payloads: seq<octets>): octets {
    if payloads == [] then [] else Encoded(payloads[0]) + [0] + Wire(payloads[1..])
  }

  /** Payloads sent arrive, all of them and in order, and nothing of them is left in the buffer. */
  lemma {:induction false} WireIsDelivered(payloads: seq<octets>)
    ensures Delivered(Wire(payloads)) == payloads && Tail(Wire(payloads)) == []
  {
    if payloads != [] {
      WireIsDelivered(payloads[1..]);
      Shape(payloads[0]);
      RoundTrip(payloads[0]);
      SegmentFirst(Encoded(payloads[0]), Wire(payloads[1..]));
      FramesAppend([Encoded(payloads[0])], Segments(Wire(payloads[1..])));
      assert Frames([Encoded(payloads[0])]) == [payloads[0]] + Frames([]);
    }
  }

  lemma TailAfterZero(s: octets)
    ensures Tail(s + [0]) == []
  {
    SegmentsAppend(s, [0]);
    TailHasNoZero(s);
    SegmentFirst(Tail(s), []);
    assert Tail(s) + [0] + [] == Tail(s) + [0];
  }

  /** Whatever came before the last zero, the frames sent after it arrive unharmed. */
  lemma DamageEndsAtTheDelimiter(damaged: octets, payloads: seq<octets>)
    ensures Delivered(damaged + [0] + Wire(payloads)) == Delivered(damaged + [0]) + payloads
  {
    SegmentsAppend(damaged + [0], Wire(payloads));
    TailAfterZero(damaged);
    assert [] + Wire(payloads) == Wire(payloads);
    FramesAppend(Segments(damaged + [0]), Segments(Wire(payloads)));
    WireIsDelivered(payloads);
  }

  method FindZero(s: octets) returns (z: int)
    ensures HasZero(s) ==> z == FirstZero(s)
    ensures !HasZero(s) ==> z == -1
  {
    var i := 0;
    while i < |s|
      invariant i <= |s| && FirstZero(s) == i + FirstZero(s[i..])
    {
      if s[i] == 0 {
        return i;
      }
      i := i + 1;
    }
    return -1;
  }

  method DecodeFrame(segment: octets) returns (r: Option<octets>)
    ensures r == Decoded(segment)
  {
    var output := new octet[|segment|](_ => 0);
    var ok, n := Decode(segment, output);
    r := if ok then Some(output[..n]) else None;
  }

  /** Cutting the first segment off a buffer accounts for the first of what it delivers. */
  lemma FirstOfBuffer(buf: octets, frames: seq<octets>)
    requires HasZero(buf)
    ensures var z := FirstZero(buf);
            var rest := buf[z + 1..];
            && Tail(buf) == Tail(rest) && (z == 0 ==> Frame(buf[..z]).None?)
            && frames + Delivered(buf)
               == (if Frame(buf[..z]).Some? then frames + [Frame(buf[..z]).value] else frames) + Delivered(rest)
  {
    var segment, rest := buf[..FirstZero(buf)], buf[FirstZero(buf) + 1..];
    FramesAppend([segment], Segments(rest));
    assert Frames([segment][1..]) == [];
    if Frame(segment).Some? {
      Assoc(frames, [Frame(segment).value], Delivered(rest));
    }
  }

  /** The add-on's end of the line. */
  class StreamReader {
    var buf: octets

    constructor ()
      ensures buf == []
    {
      buf := [];
    }

    /** Takes what one read brought and hands on the frames it completes. */
    method OnRead(data: octets) returns (frames: seq<octets>)
      modifies this
      ensures frames == Delivered(old(buf) + data) && buf == Tail(old(buf) + data)
    {
      buf := buf + data;
      frames := [];
      ghost var all := buf;
      while true
        invariant Delivered(all) == frames + Delivered(buf) && Tail(all) == Tail(buf)
        decreases |buf|
      {
        var z := FindZero(buf);
        if z < 0 {
          return;
        }
        FirstOfBuffer(buf, frames);
        if z > 0 {
          var frame := DecodeFrame(buf[..z]);
          buf := buf[z + 1..];
          if frame.Some? { frames := frames + [frame.value]; }
        } else {
          buf := buf[1..];
        }
      }
    }
  }
}
