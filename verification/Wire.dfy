/**
 * The delivery protocol and the byte stream are one: a standard reader of the frames that
 * a connection writes ends with the cursor, and a client with the version, that the protocol keeps.
 */
module Wire {
  import opened Text
  import opened Sse
  import opened Store
  import opened Delivery
  import opened DeliverySafety
  import Client

  /** What a handler writes: a frame with its payload, or a keep-alive comment. */
  datatype Written = Framed(frame: Frame, payload: seq<Byte>) | Comment

  predicate Sendable(written: Written) {
    written.Framed? ==>
      && CR !in written.payload
      && (written.frame.Ruleset? ==> 0 <= written.frame.version < 0x8000_0000_0000_0000)
  }

  /** A ruleset frame carries its version as id; a resync frame has none. */
  function Printed(written: Written): Item
    requires Sendable(written)
  {
    match written
    case Framed(Ruleset(version), payload) => Item.Event(Decimal(version), RULESET, payload)
    case Framed(Resync, payload) => Item.Event([], RESYNC, payload)
    case Comment => Item.KeepAlive
  }

  function AllPrinted(written: seq<Written>): (items: seq<Item>)
    requires forall w <- written :: Sendable(w)
    ensures |items| == |written|
  {
    if written == [] then [] else [Printed(written[0])] + AllPrinted(written[1..])
  }

  function Frames(written: seq<Written>): seq<Frame> {
    if written == [] then []
    else (if written[0].Framed? then [written[0].frame] else []) + Frames(written[1..])
  }

  function CursorStep(frame: Frame, cursor: int): int {
    if frame.Ruleset? then frame.version else cursor
  }

  /** The cursor after reading frames: the version of the last ruleset among them. */
  function CursorAfter(frames: seq<Frame>, cursor: int): int {
    if frames == [] then cursor else CursorAfter(frames[1..], CursorStep(frames[0], cursor))
  }

  lemma PrintedIsPrintable(written: Written)
    requires Sendable(written)
    ensures Printable(Printed(written))
  {
    if written.Framed? && written.frame.Ruleset? {
      forall d | d in Decimal(written.frame.version) ensures d != LF && d != CR && d != 0 {
        assert IsDigit(d);
      }
    }
  }

  lemma {:induction false} AllPrintable(written: seq<Written>)
    requires forall w <- written :: Sendable(w)
    ensures forall item <- AllPrinted(written) :: Printable(item)
  {
    hide Printable, Sendable;
    if written != [] {
      assert written[0] in written && forall w :: w in written[1..] ==> w in written;
      PrintedIsPrintable(written[0]);
      AllPrintable(written[1..]);
    }
  }

  lemma {:induction false} FinalIdIsCursor(written: seq<Written>, lastEventId: seq<Byte>)
    requires forall w <- written :: Sendable(w)
    ensures CursorOf(FinalId(AllPrinted(written), lastEventId)) == CursorAfter(Frames(written), CursorOf(lastEventId))
    decreases |written|
  {
    hide CursorOf;
    if written != [] {
      assert written[0] in written && forall w :: w in written[1..] ==> w in written;
      var next := IdAfter(Printed(written[0]), lastEventId);
      if written[0].Framed? && written[0].frame.Ruleset? {
        VersionIdRoundTrip(written[0].frame.version);
      }
      FinalIdIsCursor(written[1..], next);
      assert AllPrinted(written)[1..] == AllPrinted(written[1..]);
      if written[0].Framed? {
        assert Frames(written)[1..] == Frames(written[1..]);
      } else {
        assert Frames(written) == Frames(written[1..]);
      }
    }
  }

  /**
   * Reading the printed stream leaves a last event id that resumes at the protocol's cursor; resync frames leave it
   * alone.
   */
  lemma StreamKeepsCursor(written: seq<Written>, lastEventId: seq<Byte>)
    requires forall w <- written :: Sendable(w)
    ensures CursorOf(Read(Unlines(ItemLines(AllPrinted(written))), lastEventId).lastEventId)
            == CursorAfter(Frames(written), CursorOf(lastEventId))
  {
    hide Read, CursorOf, FinalId, CursorAfter;
    AllPrintable(written);
    StreamRoundTrip(AllPrinted(written), lastEventId);
    FinalIdIsCursor(written, lastEventId);
  }

  /** Every version that is in flight anywhere can be printed. */
  lemma PublishedCanBePrinted(s: State, version: int)
    requires Increasing(s.log) && Published(s, version)
    ensures 0 < version < 0x8000_0000_0000_0000
  {
    var i :| 0 <= i < |s.log| && s.log[i].version == version;
  }

  // ----- the protocol's reader

  function VersionsIn(frames: seq<Frame>): seq<int> {
    if frames == [] then []
    else (if frames[0].Ruleset? then [frames[0].version] else []) + VersionsIn(frames[1..])
  }

  lemma {:induction false} ApplyFirst(held: int, first: int, rest: seq<int>)
    ensures Client.ApplyAll(held, [first] + rest) == Client.ApplyAll(ApplyVersion(held, first), rest)
    decreases |rest|
  {
    var all := [first] + rest;
    if rest == [] {
      assert all[..|all| - 1] == [];
    } else {
      var n := |rest| - 1;
      ApplyFirst(held, first, rest[..n]);
      assert all[..|all| - 1] == [first] + rest[..n];
    }
  }

  ghost function WireOf(s: State, k: nat): seq<Frame>
    requires Attached(s, k)
  {
    s.connections[s.clients[k].connection.value].wire
  }

  /** Once a client has read its wire, its cursor and version are those of the frames taken in order. */
  lemma {:induction false} ReadingTheWire(c: Config, s: State, k: nat) returns (steps: seq<Step>)
    requires c.historySize > 0 && Attached(s, k)
    ensures |steps| == |WireOf(s, k)| && (forall step <- steps :: step == Receive(k)) && IsRun(c, s, steps)
    ensures var t := After(c, s, steps);
            && Attached(t, k) && WireOf(t, k) == []
            && t.clients[k].cursor == CursorAfter(WireOf(s, k), s.clients[k].cursor)
            && t.clients[k].version == Client.ApplyAll(s.clients[k].version, VersionsIn(WireOf(s, k)))
    decreases |WireOf(s, k)|
  {
    var wire := WireOf(s, k);
    steps := [];
    if wire != [] {
      var next := ReceiveOne(s, k);
      ReceiveTakesFirst(s, k);
      var rest := ReadingTheWire(c, next, k);
      steps := [Receive(k)] + rest;
      assert steps[1..] == rest;
      if wire[0].Ruleset? {
        ApplyFirst(s.clients[k].version, wire[0].version, VersionsIn(wire[1..]));
      } else {
        assert VersionsIn(wire) == VersionsIn(wire[1..]);
      }
    }
  }

  /** Whatever is written on a wire of the protocol can be printed, as long as no payload has a carriage return. */
  lemma {:induction false} WireIsSendable(s: State, frames: seq<Frame>, written: seq<Written>)
    requires Increasing(s.log) && (forall f <- frames :: f.Ruleset? ==> Published(s, f.version))
    requires Frames(written) == frames && forall w <- written :: w.Framed? ==> CR !in w.payload
    ensures forall w <- written :: Sendable(w)
    decreases |written|
  {
    if written != [] {
      var rest := Frames(written[1..]);
      assert forall w :: w in written[1..] ==> w in written;
      if written[0].Framed? {
        assert frames == [written[0].frame] + rest && frames[0] in frames;
        if written[0].frame.Ruleset? {
          PublishedCanBePrinted(s, written[0].frame.version);
        }
      } else {
        assert frames == rest;
      }
      assert forall f :: f in rest ==> f in frames;
      WireIsSendable(s, rest, written[1..]);
      assert forall w :: w in written <==> w == written[0] || w in written[1..];
    }
  }

  /**
   * After any run, take what is on a client's wire, with any payloads and keep-alives, and the last event id that the
   * client's reader holds. All of it can be printed, and reading the bytes leaves the cursor that the protocol's client
   * has once it has read its wire.
   */
  lemma BytesCarryTheCursor(c: Config, run: seq<Step>, k: nat, written: seq<Written>, lastEventId: seq<Byte>)
    returns (steps: seq<Step>)
    requires ValidConfig(c) && IsRun(c, INITIAL, run) && Attached(After(c, INITIAL, run), k)
    requires Frames(written) == WireOf(After(c, INITIAL, run), k)
    requires forall w <- written :: w.Framed? ==> CR !in w.payload
    requires CursorOf(lastEventId) == After(c, INITIAL, run).clients[k].cursor
    ensures forall w <- written :: Sendable(w)
    ensures var s := After(c, INITIAL, run);
            && (forall step <- steps :: step == Receive(k)) && IsRun(c, s, steps)
            && var t := After(c, s, steps);
               && Attached(t, k) && WireOf(t, k) == []
               && t.clients[k].cursor ==
                  CursorOf(Read(Unlines(ItemLines(AllPrinted(written))), lastEventId).lastEventId)
  {
    hide IsRun, After, Apply, Enabled, CursorOf, Read, Sendable, ItemLines, Unlines, AllPrinted, CursorAfter, Frames;
    var s := After(c, INITIAL, run);
    InitiallySafe(c);
    RunsStaySafe(c, INITIAL, run);
    WireKnown(c, s, k);
    WireIsSendable(s, WireOf(s, k), written);
    StreamKeepsCursor(written, lastEventId);
    steps := ReadingTheWire(c, s, k);
  }

  lemma WireKnown(c: Config, s: State, k: nat)
    requires Safe(c, s) && Attached(s, k)
    ensures Increasing(s.log) && forall f <- WireOf(s, k) :: f.Ruleset? ==> Published(s, f.version)
  {
  }

  lemma ReceiveTakesFirst(s: State, k: nat)
    requires Attached(s, k) && WireOf(s, k) != []
    ensures var t := ReceiveOne(s, k);
            var frame := WireOf(s, k)[0];
            && Attached(t, k) && WireOf(t, k) == WireOf(s, k)[1..]
            && t.clients[k].cursor == CursorStep(frame, s.clients[k].cursor)
            && t.clients[k].version ==
               if frame.Ruleset? then ApplyVersion(s.clients[k].version, frame.version) else s.clients[k].version
  {
  }
}
