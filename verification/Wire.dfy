/** One end of a TCP connection, and the loops that move whole blocks through partial sends and receives. */
module Wire {
  import opened Common
  import opened Octets

  const E_FATAL := -1
  const EINTR_ERROR := -4
  const E_RECEIVE := -25
  const E_SELECT := -28
  const E_SEND := -29
  const E_CONN_CLOSED := -46
  const SOCKET_TIMEOUT := -2001
  const SMALL_TIMEOUT_MS := 20000

  /** What waiting for a readable socket can end with; 0 is readiness. */
  type SelectCode = x: int | x in {0, SOCKET_TIMEOUT, EINTR_ERROR, E_SELECT, E_FATAL}

  /** The error results of a receive call. */
  predicate IsRecvError(code: int) {
    code in {SOCKET_TIMEOUT, EINTR_ERROR, E_SELECT, E_FATAL, E_RECEIVE, E_CONN_CLOSED}
  }

  /** The result of one call of `send` or `recv`. */
  datatype Raw = Moved(count: nat) | WouldBlock | Failed

  /** What the network has in store for one `recv`, and whether the time limit has run out after it. */
  datatype Move = Give(count: nat, late: bool) | Block(late: bool) | Break

  function TotalMoved(trace: seq<Raw>): nat {
    if trace == [] then 0
    else TotalMoved(trace[..|trace| - 1]) + if trace[|trace| - 1].Moved? then trace[|trace| - 1].count else 0
  }

  lemma NothingMoved()
    ensures TotalMoved([]) == 0
  {
  }

  lemma TotalAppend(trace: seq<Raw>, n: Raw)
    ensures TotalMoved(trace + [n]) == TotalMoved(trace) + if n.Moved? then n.count else 0
  {
    assert (trace + [n])[..|trace|] == trace;
  }

  /** The calls moved nothing, and the last of them would have blocked. */
  predicate BlockedThroughout(trace: seq<Raw>) {
    trace != [] && trace[|trace| - 1] == WouldBlock && TotalMoved(trace) == 0
  }

  /** After these calls a receive ends with the error of the last, or as closed if that gave nothing and none gave anything, else with all they moved. */
  predicate EndsAs(trace: seq<Raw>, r: int) {
    && trace != []
    && match trace[|trace| - 1]
       case Failed => r == E_RECEIVE
       case Moved(count) => r == if count == 0 && TotalMoved(trace) == 0 then E_CONN_CLOSED else TotalMoved(trace)
       case WouldBlock => r == TotalMoved(trace)
  }

  /**
   * `sent` is all this end has handed to the network and `incoming` all that it
   * has still to take from it. `selects` and `moves` are what the network has in
   * store for the coming calls, and `stalls` bounds how often a `send` moves nothing:
   * they can be anything. `spurious` says whether `select` may report a readable
   * socket from which nothing can be read yet; `patient`, that then something comes
   * before the time limit of the receiving runs out, if anything comes at all;
   * `steady`, that calls neither fail nor time out while there is something to move;
   * `quiet`, that waiting while nothing is to come ends with a timeout and no other error.
   */
  class Socket {
    var sent: Bytes
    var incoming: Bytes
    var peerClosed: bool
    var selects: seq<SelectCode>
    var moves: seq<Move>
    var stalls: nat
    const spurious: bool
    const patient: bool
    const steady: bool
    const quiet: bool

    constructor (incoming: Bytes, peerClosed: bool, selects: seq<SelectCode>, moves: seq<Move>, stalls: nat,
                 spurious: bool, patient: bool, steady: bool, quiet: bool)
      ensures this.incoming == incoming && sent == [] && this.peerClosed == peerClosed
      ensures this.selects == selects && this.moves == moves && this.stalls == stalls
      ensures this.spurious == spurious && this.patient == patient && this.steady == steady && this.quiet == quiet
    {
      this.incoming, sent, this.peerClosed := incoming, [], peerClosed;
      this.selects, this.moves, this.stalls := selects, moves, stalls;
      this.spurious, this.patient, this.steady, this.quiet := spurious, patient, steady, quiet;
    }

    /** A receive call can end with nothing, and not say so. */
    predicate CanMislead() { spurious && !patient }

    /** `send`: takes any leading part of the block, or fails. */
    method RawSend(b: Bytes) returns (r: Raw)
      requires b != []
      modifies this`sent, this`stalls
      ensures sent == old(sent) + if r.Moved? && r.count <= |b| then b[..r.count] else []
      ensures r.Moved? ==> r.count <= |b|
      ensures r == WouldBlock || r == Moved(0) ==> stalls < old(stalls)
      ensures steady ==> r != Failed
    {
      var moves: bool := *;
      if moves || (steady && stalls == 0) {
        var k: nat :| 0 < k <= |b|;
        sent := sent + b[..k];
        return Moved(k);
      }
      var fails: bool := *;
      if stalls == 0 || (fails && !steady) { return Failed; }
      stalls := stalls - 1;
      if * { r := Moved(0); } else { r := WouldBlock; }
    }

    method TakeBytes(k: nat) returns (got: Bytes)
      requires k <= |incoming|
      modifies this`incoming
      ensures old(incoming) == got + incoming && |got| == k
    {
      got := incoming[..k];
      incoming := incoming[k..];
    }

    /** What the next `recv` has in store; with nothing in store it gives all there is. */
    function NextMove(size: nat): Move
      reads this`moves
    {
      if moves == [] then Give(size, true) else moves[0]
    }

    /**
     * `recv`: gives a non-empty leading part of what is coming, nothing once the
     * peer has closed, would block, or fails. `late` tells whether time is up;
     * `empty`, whether the present receive has taken nothing yet.
     */
    method RawRecv(size: nat, mayBlock: bool, empty: bool) returns (r: Raw, got: Bytes, late: bool)
      requires size > 0
      modifies this`incoming, this`moves
      ensures old(incoming) == got + incoming && |got| <= size
      ensures if r.Moved? then r.count == |got| else got == []
      ensures r == Moved(0) ==> peerClosed && incoming == []
      ensures r == WouldBlock ==> mayBlock
      ensures mayBlock && old(NextMove(size)) == Block(true) && !steady && !patient ==> r == WouldBlock && late
      ensures steady && old(incoming) != [] ==> r != Failed
      ensures steady && incoming != [] ==> !late
      ensures patient && empty && r == WouldBlock ==> !late
      ensures r == WouldBlock ==> |moves| < |old(moves)|
      ensures r == Moved(0) ==> late || |moves| < |old(moves)|
      ensures |moves| <= |old(moves)|
    {
      var stored := moves != [];
      var move := NextMove(size);
      if stored { moves := moves[1..]; }
      got := [];
      var wanted := if move.Give? && move.count > 0 then move.count else 1;
      if move.Block? && mayBlock {
        r := WouldBlock;
      } else if incoming != [] && (steady || !move.Break?) {
        var k := if wanted > size then size else wanted;
        if k > |incoming| { k := |incoming|; }
        got := TakeBytes(k);
        r := Moved(k);
      } else if incoming == [] && peerClosed && !move.Break? {
        r := Moved(0);
      } else if incoming == [] && stored && mayBlock && !move.Break? {
        r := WouldBlock;
      } else {
        r := Failed;
      }
      late := !move.Break? && move.late && !(steady && incoming != []) && !(patient && empty && r == WouldBlock);
    }

    /** `recv` into the buffer at `pos`, behind what came before: `got`, which is in `was` from `base` on. */
    method RawRecvInto(buf: Buffer, pos: nat, size: nat, mayBlock: bool, empty: bool, ghost was: Bytes, ghost base: nat, ghost got: Bytes)
      returns (r: Raw, late: bool, ghost all: Bytes)
      requires size > 0 && pos == base + |got| <= |was| && buf.bytes == Put(was, base, got)
      requires pos + size <= |was| || pos + |incoming| <= |was|
      modifies this`incoming, this`moves, buf
      ensures got + old(incoming) == all + incoming && base + |all| <= |was| && buf.bytes == Put(was, base, all)
      ensures |all| == |got| + (if r.Moved? then r.count else 0) <= |got| + size
      ensures r == Moved(0) ==> peerClosed && incoming == []
      ensures r == WouldBlock ==> mayBlock
      ensures mayBlock && old(NextMove(size)) == Block(true) && !steady && !patient ==> r == WouldBlock && late
      ensures steady && old(incoming) != [] ==> r != Failed
      ensures steady && incoming != [] ==> !late
      ensures patient && empty && r == WouldBlock ==> !late
      ensures r == WouldBlock ==> |moves| < |old(moves)|
      ensures r == Moved(0) ==> late || |moves| < |old(moves)|
      ensures |moves| <= |old(moves)|
    {
      hide Put, NextMove;
      var chunk;
      r, chunk, late := RawRecv(size, mayBlock, empty);
      buf.Write(pos, chunk);
      PutsJoin(was, base, got, chunk);
      all := got + chunk;
    }

    /** `SendData`: on success the network has taken the whole block, once and in order. */
    method SendData(b: Bytes) returns (r: int)
      modifies this`sent, this`stalls
      ensures r >= 0 ==> r == |b| && sent == old(sent) + b
      ensures steady ==> r >= 0
      ensures r < 0 ==> r == E_SEND && exists k: nat :: k < |b| && sent == old(sent) + b[..k]
    {
      if |b| <= 0 { return 0; }
      var done: nat := 0;
      while done < |b|
        invariant done <= |b| && sent == old(sent) + b[..done]
        decreases |b| - done, stalls
      {
        var n := RawSend(b[done..]);
        match n {
          case WouldBlock =>
          case Failed => return E_SEND;
          case Moved(count) =>
            assert b[..done] + b[done..][..count] == b[..done + count];
            done := done + count;
        }
      }
      r := done;
    }

    /** What the next `select` reports: ready, or a code that ends the call. */
    function NextSelect(): SelectCode
      reads this`selects, this`incoming
    {
      if steady && incoming != [] then 0
      else if selects == [] || (quiet && incoming == []) then SOCKET_TIMEOUT else selects[0]
    }

    /** What a receive call for no bytes, or for a negative number of them, ends with. */
    function ResultOfNone(size: int): int
      reads this`selects, this`incoming
    {
      if NextSelect() != 0 then NextSelect() else if size == 0 then 0 else E_CONN_CLOSED
    }

    method Select() returns (code: SelectCode)
      modifies this`selects
      ensures code == old(NextSelect())
    {
      code := NextSelect();
      if selects != [] { selects := selects[1..]; }
    }

    /** The network has in store that the first `recv` of a call blocks until its time is up. */
    predicate BlocksAtOnce(size: int, recvMs: int)
      reads this
    {
      size > 0 && recvMs >= 0 && spurious && !patient && !steady && NextSelect() == 0 && moves != [] && moves[0] == Block(true)
    }

    /**
     * `RecvData`: wait until the socket is readable, then collect up to `size`
     * bytes into the buffer from `pos` on. `recvMs` below zero means no time limit
     * for the collecting. `got` is what was taken from the network: it is what was
     * written to the buffer, in order, whatever the result. `trace` are the results
     * of the single `recv` calls. A negative size gives no data and one of the
     * negative results.
     */
    method RecvData(buf: Buffer, pos: nat, size: int, recvMs: int) returns (r: int, ghost got: Bytes, ghost trace: seq<Raw>)
      requires pos <= |buf.bytes| && (pos + size <= |buf.bytes| || pos + |incoming| <= |buf.bytes|)
      modifies this`incoming, this`moves, this`selects, buf
      ensures old(incoming) == got + incoming && pos + |got| <= |old(buf.bytes)|
      ensures buf.bytes == Put(old(buf.bytes), pos, got)
      ensures r >= 0 ==> r == |got| && r <= size
      ensures r < 0 ==> IsRecvError(r)
      ensures r < 0 && r != E_RECEIVE ==> got == []
      ensures r < 0 && size > 0 ==> |got| < size
      ensures r == E_CONN_CLOSED ==> size < 0 || (peerClosed && incoming == [])
      ensures size <= 0 ==> r == old(ResultOfNone(size))
      ensures r == 0 && size > 0 <==> BlockedThroughout(trace)
      ensures r == 0 && size > 0 ==> CanMislead()
      ensures old(BlocksAtOnce(size, recvMs)) ==> r == 0 && got == []
      ensures old(NextSelect()) != 0 ==> r == old(NextSelect()) && got == []
      ensures old(NextSelect()) == 0 && size > 0 ==> EndsAs(trace, r)
      ensures steady && 0 < size <= |old(incoming)| ==> r == size
      ensures 0 <= r < size ==> recvMs >= 0 || (peerClosed && incoming == [])
    {
      hide Put, TotalMoved;
      NothingMoved();
      got, trace := [], [];
      PutNothing(buf.bytes, pos);
      ghost var atOnce := BlocksAtOnce(size, recvMs);
      var code := Select();
      if code != 0 { return code, got, trace; }
      var received: nat := 0;
      var zeros := 0;
      var first, lastWasZero := true, true;
      while received < size
        invariant received == |got| && (received <= size || received == 0) && (first ==> received == 0 && lastWasZero && trace == [])
        invariant size <= 0 ==> first
        invariant !first && received == 0 ==> spurious
        invariant !first ==> trace != [] && trace[|trace| - 1] != Failed && (lastWasZero <==> trace[|trace| - 1] == Moved(0))
        invariant received == TotalMoved(trace)
        invariant steady && 0 < size <= |old(incoming)| ==> |incoming| >= size - received
        invariant old(incoming) == got + incoming && |buf.bytes| == |old(buf.bytes)|
        invariant buf.bytes == Put(old(buf.bytes), pos, got)
        invariant !first && lastWasZero ==> peerClosed && incoming == []
        invariant atOnce ==> first && moves == old(moves)
        invariant 0 <= zeros <= 2
        decreases size - received, |moves|, 2 - zeros
      {
        var n, late;
        n, late, got := RawRecvInto(buf, pos + received, size - received, spurious || !first, received == 0, old(buf.bytes), pos, got);
        TotalAppend(trace, n);
        trace := trace + [n];
        lastWasZero := n == Moved(0);
        if first {
          first := false;
          if lastWasZero { break; }
        }
        match n {
          case WouldBlock =>
          case Failed => return E_RECEIVE, got, trace;
          case Moved(count) =>
            if count == 0 {
              if recvMs < 0 && zeros == 2 { break; }
              if recvMs < 0 { zeros := zeros + 1; }
            } else {
              received := received + count;
            }
        }
        if recvMs >= 0 && late { break; }
      }
      if lastWasZero && received == 0 && size != 0 { return E_CONN_CLOSED, got, trace; }
      r := received;
    }

    /** How both ends call it: one time limit for the waiting and the collecting, the latter never without limit. */
    method Recv(buf: Buffer, pos: nat, size: int, timeoutMs: int) returns (r: int, ghost got: Bytes, ghost trace: seq<Raw>)
      requires pos <= |buf.bytes| && (pos + size <= |buf.bytes| || pos + |incoming| <= |buf.bytes|)
      modifies this`incoming, this`moves, this`selects, buf
      ensures old(incoming) == got + incoming && pos + |got| <= |old(buf.bytes)|
      ensures buf.bytes == Put(old(buf.bytes), pos, got)
      ensures r >= 0 ==> r == |got| && r <= size
      ensures r < 0 ==> IsRecvError(r)
      ensures r < 0 && r != E_RECEIVE ==> got == []
      ensures r < 0 && size > 0 ==> |got| < size
      ensures size <= 0 ==> r == old(ResultOfNone(size))
      ensures r == 0 && size > 0 <==> BlockedThroughout(trace)
      ensures r == 0 && size > 0 ==> CanMislead()
      ensures old(BlocksAtOnce(size, SMALL_TIMEOUT_MS)) ==> r == 0 && got == []
      ensures old(NextSelect()) != 0 ==> r == old(NextSelect()) && got == []
      ensures old(NextSelect()) == 0 && size > 0 ==> EndsAs(trace, r)
      ensures steady && 0 < size <= |old(incoming)| ==> r == size
    {
      r, got, trace := RecvData(buf, pos, size, if timeoutMs < 0 then SMALL_TIMEOUT_MS else timeoutMs);
    }
  }
}
