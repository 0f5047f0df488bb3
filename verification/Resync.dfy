/** The decoder finds its way back: after any bytes at all, at most one intact frame is lost. */
module Resync {
  import opened Telemetry
  import opened Framing
  import opened FramingTheorems

  /** A read that starts before a delimiter stops at it, and then fails. */
  lemma {:induction false} DelimiterStops(s: seq<Byte>, pos: nat, n: nat, d: nat)
    requires pos <= d && Get(s, d) == DELIMITER
    ensures ReadBytes(s, pos, n).pos <= d + 1
    ensures ReadBytes(s, pos, n).ok ==> ReadBytes(s, pos, n).pos <= d
    decreases n
  {
    if n > 0 {
      var (b, next) := ReadByte(s, pos);
      if b.Some? {
        DelimiterStops(s, next, n - 1, d);
      }
    }
  }

  /** No call that starts before an intact frame's delimiter reads past the end of that frame. */
  lemma StopsBeforeEnd(k: Checks, s: seq<Byte>, pos: nat, d: nat, end: nat, m: Memory)
    requires pos <= d && Get(s, d) == DELIMITER && d + 15 <= end
    ensures ReadFrame(k, s, pos, m).1 <= end
  {
    hide Framing.ReadBytes, Telemetry.HeaderOf;
    var parts := FrameReads(s, pos);
    DelimiterStops(s, pos, 8, d);
    if parts.header.ok {
      DelimiterStops(s, parts.header.pos, 2, d);
      if parts.headerCrc.ok {
        DelimiterStops(s, parts.headerCrc.pos, HeaderOf(parts.header.data).length, d);
      }
    }
  }

  /** The next call starts reading right behind the delimiter at `d`. */
  predicate Ready(s: seq<Byte>, pos: nat, d: nat) {
    Skip(s, pos) == d + 1
  }

  lemma {:induction false} SkipTo(s: seq<Byte>, pos: nat, d: nat)
    requires pos <= d && Get(s, d) == DELIMITER
    ensures Skip(s, pos) <= d + 1
    ensures (forall i :: pos <= i < d ==> Get(s, i) != DELIMITER) ==> Ready(s, pos, d)
    decreases d - pos
  {
    if Get(s, pos) != DELIMITER {
      SkipTo(s, pos + 1, d);
    }
  }

  /** Inside a frame there is no delimiter, so the next one is the frame's end. */
  lemma ReadyInside(k: Checks, s: seq<Byte>, d: nat, p: Packet, pos: nat)
    requires p.Valid() && At(s, d, Frame(k, p)) && d < pos <= d + |Frame(k, p)|
    requires Get(s, d + |Frame(k, p)|) == DELIMITER
    ensures Ready(s, pos, d + |Frame(k, p)|)
  {
    hide Framing.Content, Framing.At, Framing.Stuff;
    var t := Stuff(Content(k, p));
    FrameStarts(k, s, d, p);
    StuffedHasNoDelimiter(Content(k, p));
    AtIsSlice(s, d + 1, t);
    forall i | pos <= i < d + |Frame(k, p)| ensures Get(s, i) != DELIMITER {
      assert s[i] == t[i - d - 1];
    }
    SkipTo(s, pos, d + |Frame(k, p)|);
  }

  lemma OneCall(k: Checks, s: seq<Byte>, pos: nat, d: nat, p: Packet, m: Memory)
    requires p.Valid() && At(s, d, Frame(k, p)) && pos <= d
    ensures pos < NextPacket(k, s, pos, m).1 <= d + |Frame(k, p)|
  {
    hide Framing.Content, Framing.ReadFrame;
    FrameStarts(k, s, d, p);
    SkipTo(s, pos, d);
    if Skip(s, pos) == d + 1 {
      ReadContent(k, s, d + 1, p, m);
    } else {
      StopsBeforeEnd(k, s, Skip(s, pos), d, d + |Frame(k, p)|, m);
    }
  }

  /**
   Whatever comes before an intact frame, and whatever the allocator does, some number of calls
   leads to where the next call starts at the end of that frame.
   */
  lemma {:induction false} Resynchronises(k: Checks, s: seq<Byte>, pos: nat, d: nat, p: Packet, ms: seq<Memory>)
    returns (n: nat)
    requires p.Valid() && At(s, d, Frame(k, p)) && pos <= d
    requires Get(s, d + |Frame(k, p)|) == DELIMITER
    requires |ms| > d - pos
    ensures n <= |ms| && Ready(s, Calls(k, s, pos, ms[..n]).1, d + |Frame(k, p)|)
    decreases d - pos
  {
    hide Framing.NextPacket, Framing.Frame, Framing.At, Ready;
    var next := NextPacket(k, s, pos, ms[0]).1;
    OneCall(k, s, pos, d, p, ms[0]);
    if next <= d {
      var n' := Resynchronises(k, s, next, d, p, ms[1..]);
      n := n' + 1;
      assert ms[..n][0] == ms[0] && ms[..n][1..] == ms[1..][..n'];
    } else {
      ReadyInside(k, s, d, p, next);
      n := 1;
      assert ms[..1][0] == ms[0] && ms[..1][1..] == [];
    }
  }

  lemma SameWhenReady(k: Checks, s: seq<Byte>, pos: nat, d: nat, ms: seq<Memory>)
    requires Ready(s, pos, d) && Ready(s, d, d)
    ensures ms != [] ==> Calls(k, s, pos, ms) == Calls(k, s, d, ms)
  {
    hide Framing.ReadFrame;
  }

  lemma {:induction false} CallsConcat(k: Checks, s: seq<Byte>, pos: nat, ms: seq<Memory>, ns: seq<Memory>)
    ensures
      var first := Calls(k, s, pos, ms);
      var more := Calls(k, s, first.1, ns);
      Calls(k, s, pos, ms + ns) == (first.0 + more.0, more.1)
    decreases |ms|
  {
    hide Framing.NextPacket;
    if ms == [] {
      assert ms + ns == ns;
      assert [] + Calls(k, s, pos, ns).0 == Calls(k, s, pos, ns).0;
    } else {
      var next := NextPacket(k, s, pos, ms[0]).1;
      assert (ms + ns)[1..] == ms[1..] + ns;
      CallsConcat(k, s, next, ms[1..], ns);
      var first, result := Calls(k, s, next, ms[1..]), NextPacket(k, s, pos, ms[0]).0;
      assert [result] + first.0 + Calls(k, s, first.1, ns).0 == [result] + (first.0 + Calls(k, s, first.1, ns).0);
    }
  }

  /**
   For any bytes `g`, any intact frame `p` and any packets `ps`: reading the stream g, p, ps, after
   some calls the rest of the calls return exactly `ps` and use the stream up. At most `p` is lost.
   */
  lemma AtMostOneFrameIsLost(k: Checks, g: seq<Byte>, p: Packet, ps: seq<Packet>, ms: seq<Memory>, room: seq<Memory>)
    returns (n: nat)
    requires p.Valid() && AllValid(ps)
    requires |ms| > |g| && |room| == |ps| && HaveRoom(room)
    ensures n <= |ms|
    ensures
      var s := g + Frame(k, p) + Frames(k, ps);
      var (results, end) := Calls(k, s, 0, ms[..n] + room);
      results[n..] == Somes(ps) && (ps != [] ==> end == |s|)
  {
    hide Framing.NextPacket, Framing.Frame, Framing.At, Ready;
    var s := g + Frame(k, p) + Frames(k, ps);
    var d := |g| + |Frame(k, p)|;
    FramesLie(k, g, p, ps);
    n := Resynchronises(k, s, 0, |g|, p, ms);
    RoundTrip(k, s, d, ps, room);
    ReadyAtDelimiter(s, d);
    CallsConcat(k, s, 0, ms[..n], room);
    SameWhenReady(k, s, Calls(k, s, 0, ms[..n]).1, d, room);
  }

  lemma ReadyAtDelimiter(s: seq<Byte>, d: nat)
    requires Get(s, d) == DELIMITER
    ensures Ready(s, d, d)
  {}

  lemma FramesLie(k: Checks, g: seq<Byte>, p: Packet, ps: seq<Packet>)
    requires p.Valid() && AllValid(ps)
    ensures
      var s := g + Frame(k, p) + Frames(k, ps);
      var d := |g| + |Frame(k, p)|;
      At(s, |g|, Frame(k, p)) && At(s, d, Frames(k, ps)) && Get(s, d) == DELIMITER && |s| == d + |Frames(k, ps)|
  {
    hide Framing.Content, Framing.At;
    var f, fs := Frame(k, p), Frames(k, ps);
    var s := g + f + fs;
    AtIsSlice(s, |g|, f);
    AtIsSlice(s, |g| + |f|, fs);
    assert s[|g|..|g| + |f|] == f;
    assert s[|g| + |f|..|g| + |f| + |fs|] == fs;
    if ps != [] { assert fs[0] == DELIMITER; }
  }
}
