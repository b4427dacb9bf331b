/** The slots as the array they are, and the three tasks' turns as loops over it. The assertions of
    lend, borrow and return are preconditions here, met at every call. */
module Tasks {
  import opened Bytes
  import opened Slots
  import P = Pipeline
  import W = Wire

  datatype Log = Log(lent: seq<Item>, taken: seq<Item>, returned: seq<Item>)

  class Rendezvous {
    const iow: array<Slot>
    const fmt: W.WireFormat
    const signedChar: bool
    ghost var logs: seq<Log>
    var wire: P.Wire
    var front: P.Front
    var resp: P.Resp

    ghost predicate Valid()
      reads this
    {
      iow.Length == 255 && |logs| == 255 && fmt.buf.Length == 1024
    }

    ghost function Chan(id: nat): Channel
      requires Valid() && id < 255
      reads this, iow
    {
      Channel(iow[id], logs[id].lent, logs[id].taken, logs[id].returned, false)
    }

    ghost function View(): P.State
      requires Valid()
      reads this, iow, fmt
    {
      P.State(signedChar, fmt.View(), wire, front, resp, Chan(0), Chan(1), false)
    }

    constructor (signedChar: bool, lrc: byte, start: nat)
      ensures Valid() && View() == P.Initial(signedChar, W.State(W.Start, lrc, start)) && fresh(iow) && fresh(fmt)
    {
      iow := new Slot[255](_ => Slot(None, false, false));
      fmt := new W.WireFormat(lrc, start);
      this.signedChar := signedChar;
      logs := seq(255, _ => Log([], [], []));
      wire, front, resp := P.Reading, P.FrontNew, P.RespNew;
    }

    // ----- suspendables.c; each method is the code up to the next suspension

    ghost predicate OnlyChannel(id: nat, before: seq<Channel>)
      requires Valid()
      reads this, iow
    {
      |before| == 255 && forall k: nat | k < 255 && k != id :: Chan(k) == before[k]
    }

    ghost function Channels(): (r: seq<Channel>)
      requires Valid()
      reads this, iow
      ensures |r| == 255 && forall k: nat | k < 255 :: r[k] == Chan(k)
    {
      seq(255, k requires 0 <= k < 255 && Valid() reads this, iow => Chan(k))
    }

    method SusLend(id: nat, it: Item)
      requires Valid() && id < 255
      requires !iow[id].borrowed && iow[id].item.None?
      modifies iow, `logs
      ensures Valid() && Chan(id) == Lend(old(Chan(id)), it) && OnlyChannel(id, old(Channels()))
    {
      iow[id] := Slot(Some(it), false, false);
      logs := logs[id := logs[id].(lent := logs[id].lent + [it])];
    }

    method SusDisable(id: nat)
      requires Valid() && id < 255
      modifies iow
      ensures Valid() && Chan(id) == Disable(old(Chan(id))) && OnlyChannel(id, old(Channels()))
    {
      iow[id] := iow[id].(disabled := true);
    }

    /** One round of the wait loop of `sus_borrow` */
    method Try(id: nat) returns (r: Borrowing)
      requires Valid() && id < 255
      modifies iow, `logs
      ensures Valid() && r == Look(old(Chan(id))) && Chan(id) == Looked(old(Chan(id)))
      ensures OnlyChannel(id, old(Channels()))
    {
      if iow[id].item.None? {
        return if iow[id].disabled then Gone else Blocked;
      }
      r := Got(iow[id].item.value);
      iow[id] := iow[id].(borrowed := true);
      logs := logs[id := logs[id].(taken := logs[id].taken + [r.item])];
    }

    method SusBorrow(id: nat) returns (r: Borrowing)
      requires Valid() && id < 255
      requires !iow[id].borrowed
      modifies iow, `logs
      ensures Valid() && r == Enter(old(Chan(id))) && Chan(id) == Entered(old(Chan(id)))
      ensures OnlyChannel(id, old(Channels()))
    {
      if iow[id].disabled {
        return Gone;
      }
      r := Try(id);
    }

    method SusReturn(id: nat, it: Item)
      requires Valid() && id < 255
      requires iow[id].borrowed && iow[id].item == Some(it)
      modifies iow, `logs
      ensures Valid() && Chan(id) == Return(old(Chan(id)), it) && OnlyChannel(id, old(Channels()))
    {
      iow[id] := Slot(None, false, false);
      logs := logs[id := logs[id].(returned := logs[id].returned + [it])];
    }

    // ----- the tasks

    /** `read` into the buffer of the wire task, then `write exec` up to the list of its lends. */
    method ReadChunk(bytes: seq<byte>)
      requires Valid() && |bytes| <= fmt.buf.Length
      requires !P.Held(View())
      modifies fmt, fmt.buf
      ensures Valid() && View() == old(View()).(m := P.Machine(old(View()), bytes).w)
      ensures fmt.lent == P.Machine(old(View()), bytes).lent
    {
      hide W.Exec;
      forall i | 0 <= i < |bytes| {
        fmt.buf[i] := bytes[i];
      }
      assert fmt.buf[..|bytes|] == bytes;
      fmt.lent := [];
      fmt.WriteExec(signedChar, |bytes|);
    }

    method WireTurn(input: seq<P.Read>)
      requires Valid() && P.Inv(View())
      requires forall r | r in input :: r.Chunk? ==> |r.bytes| <= fmt.buf.Length
      modifies this, iow, fmt, fmt.buf
      ensures Valid() && View() == P.WireStep(old(View()), input) && P.Inv(View())
    {
      ghost var s := View();
      P.StepKeeps(s, P.WireTurn(input));
      if wire.WireGone? || (wire.Lending? && iow[0].item.Some?) {
        return;
      }
      if wire.Lending? && wire.rest != [] {
        SusLend(0, wire.rest[0]);
        wire := P.Lending(wire.rest[1..]);
        return;
      }
      WireReads(input);
    }

    /** The `while` of `fsm_wireformat`. The buffer is only refilled when nobody holds a pointer into it. */
    method WireReads(input: seq<P.Read>)
      requires Valid() && P.Inv(View()) && !wire.WireGone? && iow[0].item.None?
      requires forall r | r in input :: r.Chunk? ==> |r.bytes| <= fmt.buf.Length
      modifies this, iow, fmt, fmt.buf
      ensures Valid() && View() == P.WireReads(old(View()), input)
    {
      hide P.Machine;
      ghost var s := View();
      var k := 0;
      assert input[0..] == input;
      while k < |input|
        invariant k <= |input| && Valid() && P.Inv(View()) && !wire.WireGone? && iow[0].item.None?
        invariant P.WireReads(s, input) == P.WireReads(View(), input[k..])
      {
        assert input[k..][0] == input[k] && input[k..][1..] == input[k + 1..];
        if input[k].Eof? {
          SusDisable(0);
          wire := P.WireGone;
          return;
        }
        ReadChunk(input[k].bytes);
        if fmt.lent != [] {
          var items := P.Items(fmt.lent);
          SusLend(0, items[0]);
          wire := P.Lending(items[1..]);
          return;
        }
        k := k + 1;
      }
      wire := P.Reading;
    }

    /** The rest of the frontend's loop after a borrow gave `r`. */
    method FrontLoop(r: Borrowing, acts: seq<P.Exec>)
      requires Valid() && P.OutOfBorrow(View(), r)
      modifies this, iow
      ensures Valid() && View() == P.FrontGot(old(View()), r, acts)
    {
      match r {
        case Blocked =>
          front := P.FrontWaiting;
        case Gone =>
          SusDisable(1);
          front := P.FrontGone;
        case Got(it) =>
          if it.size < 0 {
            SusDisable(1);
            front := P.FrontGone;
          } else {
            FrontRange(it, acts);
          }
      }
    }

    /** `fsm_exec` on the borrowed range, up to a suspension; then the return and the next borrow. */
    method FrontRange(it: Item, acts: seq<P.Exec>)
      requires Valid() && it.size >= 0 && P.Inv(View().(front := P.FrontWriting(it)))
      modifies this, iow
      ensures Valid() && View() == P.FrontExec(old(View()), it, acts)
    {
      ghost var s := View();
      if acts == [] || acts[0].Write? {
        front := P.FrontWriting(it);
      } else if acts[0].LendFrom? {
        SusLend(1, P.Suffix(it, acts[0].offset));
        front := P.FrontLending(it);
      } else {
        SusReturn(0, it);
        var r := SusBorrow(0);
        assert r == Blocked;
        front := P.FrontWaiting;
      }
    }

    method FrontTurn(acts: seq<P.Exec>)
      requires Valid() && P.Inv(View())
      modifies this, iow
      ensures Valid() && View() == P.FrontStep(old(View()), acts) && P.Inv(View())
    {
      P.StepKeeps(View(), P.FrontTurn(acts));
      match front {
        case FrontNew =>
          var r := SusBorrow(0);
          FrontLoop(r, acts);
        case FrontWaiting =>
          var r := Try(0);
          FrontLoop(r, acts);
        case FrontWriting(it) =>
          FrontRange(it, acts);
        case FrontLending(it) =>
          if iow[1].item.None? {
            FrontRange(it, acts);
          }
        case FrontGone =>
      }
    }

    /** The body of the autoresponder's loop on a borrowed item; then the next borrow. */
    method RespRange(it: Item, waits: seq<bool>)
      requires Valid() && P.Inv(View().(resp := P.RespWriting(it)))
      modifies this, iow
      ensures Valid() && View() == P.RespWork(old(View()), it, waits)
    {
      if waits == [] || waits[0] {
        resp := P.RespWriting(it);
      } else {
        SusReturn(1, it);
        var r := SusBorrow(1);
        assert r == Blocked;
        resp := P.RespWaiting;
      }
    }

    /** The rest of the autoresponder's loop after a borrow gave `r`. */
    method RespLoop(r: Borrowing, waits: seq<bool>)
      requires Valid()
      requires match r
               case Blocked => true
               case Gone => true
               case Got(it) => it.size >= 0 && P.Inv(View().(resp := P.RespWriting(it)))
      modifies this, iow
      ensures Valid() && View() == P.RespGot(old(View()), r, waits)
    {
      hide P.Inv;
      match r {
        case Blocked => resp := P.RespWaiting;
        case Gone => resp := P.RespGone;
        case Got(it) => RespRange(it, waits);
      }
    }

    method RespTurn(waits: seq<bool>)
      requires Valid() && P.Inv(View())
      modifies this, iow
      ensures Valid() && View() == P.RespStep(old(View()), waits) && P.Inv(View())
    {
      P.StepKeeps(View(), P.RespTurn(waits));
      assert iow[1].item.Some? ==> iow[1].item.value.size >= 0;
      match resp {
        case RespNew =>
          var r := SusBorrow(1);
          RespLoop(r, waits);
        case RespWaiting =>
          var r := Try(1);
          RespLoop(r, waits);
        case RespWriting(it) =>
          RespRange(it, waits);
        case RespGone =>
      }
    }
  }
}
