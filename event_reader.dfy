/** read_hci_event (uim.c): reading one HCI event off the UART. The H4
    transport (Bluetooth Core Specification, Volume 4 Part A, section 2)
    puts a one-byte packet indicator in front of each packet; an HCI Event
    packet (Volume 2 Part E, section 5.4.4) is an event code, a parameter
    length and the parameters.

    The descriptor is modelled by the sequence of answers its read(2) calls
    give: a failure, or a chunk of bytes the driver has ready. */
module EventReader {
  import opened Bytes

  /** The byte that starts every event packet; the comment at uim.c lines
      96-97 fixes it to the H4 event indicator 0x04. */
  const RESP_PREFIX: byte := 0x04
  /** Failed reads the sync scan tolerates before it gives up. */
  const SYNC_RETRIES: nat := 4

  /** One answer of read(2): an error, or the bytes the driver has ready.
      An empty chunk is read returning 0. */
  datatype ReadOutcome = Failed | Chunk(data: seq<byte>)

  /** The bytes the next answer holds: a read either consumes that answer
      or leaves fewer of them. */
  function HeadLen(s: seq<ReadOutcome>): nat
  {
    if s != [] && s[0].Chunk? then |s[0].data| else 0
  }

  /** What is left of a chunk after a read took its front, ahead of the rest. */
  function Requeue(left: seq<byte>, s: seq<ReadOutcome>): seq<ReadOutcome>
  {
    if left == [] then s else [Chunk(left)] + s
  }

  /** The result of one read(2): its return value, the bytes it stored and
      what the descriptor still holds. */
  datatype Read = Read(rd: int, data: seq<byte>, rest: seq<ReadOutcome>)

  /** read(fd, p, n): at most n bytes of the next chunk; bytes not asked for
      stay queued. Once the answers run out every read fails, as reads on
      the non-blocking descriptor do when nothing arrives. */
  function ReadUpTo(s: seq<ReadOutcome>, n: nat): (r: Read)
    requires n > 0
    ensures r.rd > 0 ==> r.rd == |r.data| <= n && r.data != []
    ensures r.rd <= 0 ==> r.data == []
  {
    if s == [] then Read(-1, [], [])
    else match s[0]
      case Failed => Read(-1, [], s[1..])
      case Chunk(d) =>
        if d == [] then Read(0, [], s[1..])
        else
          var k := if |d| <= n then |d| else n;
          Read(k, d[..k], Requeue(d[k..], s[1..]))
  }

  /** Reference reading of the link: the bytes it hands over before the
      first failed or empty read. */
  function Delivered(s: seq<ReadOutcome>): seq<byte>
  {
    if s == [] then []
    else match s[0]
      case Failed => []
      case Chunk(d) => if d == [] then [] else d + Delivered(s[1..])
  }

  lemma DeliveredRequeue(left: seq<byte>, s: seq<ReadOutcome>)
    ensures Delivered(Requeue(left, s)) == left + Delivered(s)
  {
    if left != [] {
      assert Requeue(left, s)[1..] == s;
    }
  }

  /** A read that returns bytes takes them off the front of what the link delivers. */
  lemma ReadUpToDelivered(s: seq<ReadOutcome>, n: nat)
    requires n > 0
    ensures var r := ReadUpTo(s, n);
      if r.rd > 0 then Delivered(s) == r.data + Delivered(r.rest) else Delivered(s) == []
  {
    if s != [] && s[0].Chunk? && s[0].data != [] {
      var d := s[0].data;
      var k := if |d| <= n then |d| else n;
      DeliveredRequeue(d[k..], s[1..]);
      assert d == d[..k] + d[k..];
    }
  }

  // ----- the sync scan (uim.c lines 98-110) -----

  /** State after the sync scan: whether the prefix was found, what buf[0]
      holds and what the descriptor still holds. */
  datatype Sync = Sync(ok: bool, head: byte, rest: seq<ReadOutcome>)

  /** One-byte reads until the prefix arrives. A failed read costs a retry
      (and a 50 ms sleep); once the retry count has reached SYNC_RETRIES the
      next read attempt ends the scan, whatever it delivers. Stray bytes cost
      nothing. */
  function SyncScan(s: seq<ReadOutcome>, retries: nat, head: byte): (r: Sync)
    requires retries <= SYNC_RETRIES
    ensures r.ok ==> r.head == RESP_PREFIX
    decreases |s|, HeadLen(s), SYNC_RETRIES - retries
  {
    var rd := ReadUpTo(s, 1);
    if rd.rd <= 0 then
      if retries < SYNC_RETRIES then SyncScan(rd.rest, retries + 1, head)
      else Sync(false, head, rd.rest)
    else if retries >= SYNC_RETRIES then Sync(false, rd.data[0], rd.rest)
    else if rd.data[0] == RESP_PREFIX then Sync(true, RESP_PREFIX, rd.rest)
    else SyncScan(rd.rest, retries, rd.data[0])
  }

  /** Position of the first x in d. */
  function IndexOf(d: seq<byte>, x: byte): (i: nat)
    requires x in d
    ensures i < |d| && d[i] == x
    ensures forall k :: 0 <= k < i ==> d[k] != x
  {
    if d[0] == x then 0 else IndexOf(d[1..], x) + 1
  }

  /** Adds one failed read to a reference answer. */
  function OneMoreFailure(p: Option<(nat, seq<ReadOutcome>)>): Option<(nat, seq<ReadOutcome>)>
  {
    match p
    case None => None
    case Some((f, rest)) => Some((f + 1, rest))
  }

  /** Reference reading of the sync scan without its retry budget: the number
      of failed or empty reads met before the first prefix byte, and what the
      descriptor holds after that byte; None when no prefix byte ever comes. */
  function FirstPrefix(s: seq<ReadOutcome>): Option<(nat, seq<ReadOutcome>)>
  {
    if s == [] then None
    else match s[0]
      case Failed => OneMoreFailure(FirstPrefix(s[1..]))
      case Chunk(d) =>
        if d == [] then OneMoreFailure(FirstPrefix(s[1..]))
        else if RESP_PREFIX in d then Some((0, Requeue(d[IndexOf(d, RESP_PREFIX) + 1..], s[1..])))
        else FirstPrefix(s[1..])
  }

  /** Past a stray first byte, the first prefix byte of d is that of d[1..]. */
  lemma StrayIndex(d: seq<byte>)
    requires d != [] && d[0] != RESP_PREFIX && RESP_PREFIX in d
    ensures RESP_PREFIX in d[1..]
    ensures d[IndexOf(d, RESP_PREFIX) + 1..] == d[1..][IndexOf(d[1..], RESP_PREFIX) + 1..]
  {
    var i := IndexOf(d, RESP_PREFIX);
    assert d[1..][i - 1] == d[i];
  }

  /** Dropping a stray byte from the front of a chunk changes nothing about
      where the prefix is. */
  lemma FirstPrefixStray(d: seq<byte>, s: seq<ReadOutcome>)
    requires d != [] && d[0] != RESP_PREFIX
    ensures FirstPrefix([Chunk(d)] + s) == FirstPrefix(Requeue(d[1..], s))
  {
    var t := [Chunk(d)] + s;
    assert t[0] == Chunk(d) && t[1..] == s;
    if RESP_PREFIX in d {
      StrayIndex(d);
      var u := Requeue(d[1..], s);
      assert u[0] == Chunk(d[1..]) && u[1..] == s;
    } else if d[1..] != [] {
      var u := Requeue(d[1..], s);
      assert u[0] == Chunk(d[1..]) && u[1..] == s;
      assert RESP_PREFIX !in d[1..] by {
        forall k | 0 <= k < |d[1..]|
          ensures d[1..][k] != RESP_PREFIX
        {
          assert d[1..][k] == d[k + 1];
        }
      }
    }
  }

  /** The sync scan succeeds exactly when the prefix arrives while fewer than
      SYNC_RETRIES failed reads have accumulated, and it leaves the descriptor
      just past that prefix byte. */
  lemma {:induction false} SyncScanReference(s: seq<ReadOutcome>, retries: nat, head: byte)
    requires retries <= SYNC_RETRIES
    ensures var r := SyncScan(s, retries, head);
      var p := FirstPrefix(s);
      (r.ok <==> p.Some? && retries + p.value.0 < SYNC_RETRIES) &&
      (r.ok ==> r.rest == p.value.1)
    decreases |s|, HeadLen(s), SYNC_RETRIES - retries
  {
    var rd := ReadUpTo(s, 1);
    if s == [] {
      if retries < SYNC_RETRIES {
        SyncScanReference(rd.rest, retries + 1, head);
      }
    } else if s[0].Failed? || s[0].data == [] {
      if retries < SYNC_RETRIES {
        SyncScanReference(rd.rest, retries + 1, head);
      }
    } else {
      var d := s[0].data;
      assert s == [Chunk(d)] + s[1..];
      assert rd.data == [d[0]] && rd.rest == Requeue(d[1..], s[1..]);
      if retries < SYNC_RETRIES {
        if d[0] == RESP_PREFIX {
          assert RESP_PREFIX in d && IndexOf(d, RESP_PREFIX) == 0;
        } else {
          FirstPrefixStray(d, s[1..]);
          SyncScanReference(rd.rest, retries, d[0]);
        }
      }
    }
  }

  // ----- filling the header and the parameters (uim.c lines 113-132) -----

  /** State after a fill: whether the target count was reached, the bytes
      stored so far and what the descriptor still holds. */
  datatype Fill = Fill(ok: bool, got: seq<byte>, rest: seq<ReadOutcome>)

  /** Reads of the missing count until target bytes are stored; a partial
      read is kept and the rest asked for again; a failed or empty read ends
      the fill at once, with no retry. */
  function FillTo(s: seq<ReadOutcome>, got: seq<byte>, target: nat): (r: Fill)
    requires |got| <= target
    ensures got <= r.got && |r.got| <= target
    ensures r.ok <==> |r.got| == target
    decreases |s|, HeadLen(s)
  {
    if |got| == target then Fill(true, got, s)
    else
      var rd := ReadUpTo(s, target - |got|);
      if rd.rd <= 0 then Fill(false, got, rd.rest)
      else FillTo(rd.rest, got + rd.data, target)
  }

  /** One read of a fill that is not yet complete. */
  lemma FillStep(s: seq<ReadOutcome>, got: seq<byte>, target: nat)
    requires |got| < target
    ensures var rd := ReadUpTo(s, target - |got|);
      FillTo(s, got, target) ==
        if rd.rd <= 0 then Fill(false, got, rd.rest) else FillTo(rd.rest, got + rd.data, target)
  {
  }

  function Min(a: int, b: int): int
  {
    if a <= b then a else b
  }

  /** The reference answer of a fill survives moving bytes data that were
      read from the front of the delivery more into what was stored. */
  lemma FillAdvance(r: Fill, got: seq<byte>, data: seq<byte>, more: seq<byte>, rest: seq<byte>, target: nat)
    requires (r.ok <==> |got + data| + |more| >= target)
    requires r.got == ((got + data) + more)[..Min(target, |got + data| + |more|)]
    requires r.ok ==> (got + data) + more == r.got + rest
    ensures (r.ok <==> |got| + |data + more| >= target)
    ensures r.got == (got + (data + more))[..Min(target, |got| + |data + more|)]
    ensures r.ok ==> got + (data + more) == r.got + rest
  {
    assert (got + data) + more == got + (data + more);
  }

  /** The reference answer of a fill from got towards target on s: it
      succeeds exactly when the link delivers the missing bytes before a
      failed read, stores the first of them, and leaves the rest. */
  predicate FillAgrees(s: seq<ReadOutcome>, got: seq<byte>, target: nat)
    requires |got| <= target
  {
    var r := FillTo(s, got, target);
    && (r.ok <==> |got| + |Delivered(s)| >= target)
    && r.got == (got + Delivered(s))[..Min(target, |got| + |Delivered(s)|)]
    && (r.ok ==> got + Delivered(s) == r.got + Delivered(r.rest))
  }

  lemma FillDone(s: seq<ReadOutcome>, got: seq<byte>, target: nat)
    requires |got| == target
    ensures FillAgrees(s, got, target)
  {
    assert (got + Delivered(s))[..target] == got;
  }

  lemma FillStopped(s: seq<ReadOutcome>, got: seq<byte>, target: nat)
    requires |got| < target && ReadUpTo(s, target - |got|).rd <= 0
    ensures FillAgrees(s, got, target)
  {
    FillStep(s, got, target);
    ReadUpToDelivered(s, target - |got|);
    assert got + Delivered(s) == got;
  }

  lemma FillAdvanced(s: seq<ReadOutcome>, got: seq<byte>, target: nat)
    requires |got| < target
    requires var rd := ReadUpTo(s, target - |got|);
      rd.rd > 0 && |got + rd.data| <= target && FillAgrees(rd.rest, got + rd.data, target)
    ensures FillAgrees(s, got, target)
  {
    var rd := ReadUpTo(s, target - |got|);
    FillStep(s, got, target);
    ReadUpToDelivered(s, target - |got|);
    var r := FillTo(rd.rest, got + rd.data, target);
    FillAdvance(r, got, rd.data, Delivered(rd.rest), Delivered(r.rest), target);
  }

  /** A fill stores the first target bytes the link delivers, and succeeds
      exactly when the link delivers that many before a failed read; what it
      leaves is the rest of the delivery. */
  lemma {:induction false} FillReference(s: seq<ReadOutcome>, got: seq<byte>, target: nat)
    requires |got| <= target
    ensures var r := FillTo(s, got, target);
      (r.ok <==> |got| + |Delivered(s)| >= target) &&
      r.got == (got + Delivered(s))[..Min(target, |got| + |Delivered(s)|)] &&
      (r.ok ==> got + Delivered(s) == r.got + Delivered(r.rest))
    decreases |s|, HeadLen(s)
  {
    if |got| == target {
      FillDone(s, got, target);
    } else {
      var rd := ReadUpTo(s, target - |got|);
      if rd.rd <= 0 {
        FillStopped(s, got, target);
      } else {
        FillReference(rd.rest, got + rd.data, target);
        FillAdvanced(s, got, target);
      }
    }
  }

  // ----- the whole event (uim.c lines 82-135) -----

  /** The parameter count read_hci_event reads: the declared length, clamped
      to the room the caller's buffer has after the 3-byte header (not
      positive when there is none). */
  function Remain(plen: byte, size: int): int
  {
    if plen < size - 3 then plen else size - 3
  }

  /** What read_hci_event returns and leaves: the return value, buf[0], the
      bytes stored from buf[1] on, and what the descriptor still holds. */
  datatype Event = Event(ret: int, head: byte, body: seq<byte>, rest: seq<ReadOutcome>)

  /** read_hci_event(fd, buf, size) with buf[0] == head on entry. */
  function ReadEvent(s: seq<ReadOutcome>, size: int, head: byte): (e: Event)
    ensures e.ret == -1 || e.ret >= 3
    ensures size <= 0 ==> e.ret == -1 && e.head == head && e.body == []
    ensures e.ret >= 0 ==>
      && e.head == RESP_PREFIX && |e.body| >= 2 && e.ret == 1 + |e.body|
      && e.ret == 3 + (if size >= 3 then Min(e.body[1], size - 3) else 0)
    ensures size >= 3 ==> 1 + |e.body| <= size
    ensures size < 3 ==> |e.body| <= 2
  {
    if size <= 0 then Event(-1, head, [], s)
    else
      var sy := SyncScan(s, 0, head);
      if !sy.ok then Event(-1, sy.head, [], sy.rest)
      else
        var hd := FillTo(sy.rest, [], 2);
        if !hd.ok then Event(-1, RESP_PREFIX, hd.got, hd.rest)
        else ParamsEvent(hd.got, hd.rest, size)
  }

  /** The rest of read_hci_event once the header was read (uim.c lines
      121-134): the clamped number of parameters is read after it. */
  function ParamsEvent(header: seq<byte>, s: seq<ReadOutcome>, size: int): (e: Event)
    requires |header| == 2
    ensures e.head == RESP_PREFIX && header <= e.body
  {
    var remain := Remain(header[1], size);
    if remain <= 0 then Event(3, RESP_PREFIX, header, s)
    else
      var pm := FillTo(s, [], remain);
      Event(if pm.ok then 3 + remain else -1, RESP_PREFIX, header + pm.got, pm.rest)
  }

  /** Once the header is in, the event is complete exactly when the link
      delivers the clamped number of parameters before a failed read. */
  lemma ParamsReference(header: seq<byte>, s: seq<ReadOutcome>, size: int)
    requires |header| == 2
    ensures var e := ParamsEvent(header, s, size);
      var d := header + Delivered(s);
      var remain := Remain(header[1], size);
      (e.ret >= 0 <==> |d| >= 2 + remain) &&
      (e.ret >= 0 ==> e.ret == 3 + (if remain > 0 then remain else 0) && e.body == d[..e.ret - 1])
  {
    var d := header + Delivered(s);
    var remain := Remain(header[1], size);
    if remain > 0 {
      FillReference(s, [], remain);
      var pm := FillTo(s, [], remain);
      assert [] + Delivered(s) == Delivered(s);
      if pm.ok {
        assert d[..2 + remain] == header + pm.got;
      }
    } else {
      assert d[..2] == header;
    }
  }

  /** read_hci_event succeeds exactly when the prefix arrives within the retry
      budget and the link then delivers, with no failed read, the event code,
      the parameter length and the clamped number of parameters; those bytes
      follow the prefix in the buffer. */
  lemma ReadEventReference(s: seq<ReadOutcome>, size: int, head: byte)
    requires size > 0
    ensures var e := ReadEvent(s, size, head);
      var p := FirstPrefix(s);
      var d := if p.Some? then Delivered(p.value.1) else [];
      var ok := p.Some? && p.value.0 < SYNC_RETRIES && |d| >= 2 && |d| >= 2 + Remain(d[1], size);
      (e.ret >= 0 <==> ok) &&
      (ok ==> (e.ret == 3 + (if Remain(d[1], size) > 0 then Remain(d[1], size) else 0)
               && e.body == d[..e.ret - 1]))
  {
    SyncScanReference(s, 0, head);
    var sy := SyncScan(s, 0, head);
    if sy.ok {
      FillReference(sy.rest, [], 2);
      var hd := FillTo(sy.rest, [], 2);
      assert [] + Delivered(sy.rest) == Delivered(sy.rest);
      if hd.ok {
        ParamsReference(hd.got, hd.rest, size);
        assert Delivered(sy.rest)[1] == hd.got[1];
      }
    }
  }

  // ----- the imperative reader -----

  /** The buffer contents b after the bytes d are stored from position off on. */
  function Store(b: seq<byte>, off: nat, d: seq<byte>): (r: seq<byte>)
    requires off + |d| <= |b|
    ensures |r| == |b|
  {
    b[..off] + d + b[off + |d|..]
  }

  lemma StoreAt(b: seq<byte>, off: nat, d: seq<byte>)
    requires off + |d| <= |b|
    ensures forall i :: 0 <= i < |b| ==> Store(b, off, d)[i] == (if off <= i < off + |d| then d[i - off] else b[i])
  {
  }

  /** Two stores one after the other are one store of both. */
  lemma StoreTwice(b: seq<byte>, off: nat, d1: seq<byte>, d2: seq<byte>)
    requires off + |d1| + |d2| <= |b|
    ensures Store(Store(b, off, d1), off + |d1|, d2) == Store(b, off, d1 + d2)
  {
    var l, r := Store(Store(b, off, d1), off + |d1|, d2), Store(b, off, d1 + d2);
    StoreAt(b, off, d1);
    StoreAt(Store(b, off, d1), off + |d1|, d2);
    StoreAt(b, off, d1 + d2);
    assert forall i :: 0 <= i < |b| ==> l[i] == r[i];
  }

  /** read(fd, buf + off, n): stores what the read returns at buf[off..]. */
  method ReadInto(buf: array<byte>, off: nat, n: nat, s: seq<ReadOutcome>) returns (rd: int, rest: seq<ReadOutcome>)
    requires n > 0 && off + n <= buf.Length
    modifies buf
    ensures var r := ReadUpTo(s, n);
      rd == r.rd && rest == r.rest && buf[..] == Store(old(buf[..]), off, r.data)
  {
    var r := ReadUpTo(s, n);
    StoreAt(old(buf[..]), off, r.data);
    forall i | 0 <= i < |r.data| {
      buf[off + i] := r.data[i];
    }
    rd, rest := r.rd, r.rest;
  }

  /** One read of the sync loop: read(fd, buf, 1), the rest of the buffer
      being as it was on entry to the loop. */
  method ReadOne(buf: array<byte>, ghost b0: seq<byte>, s: seq<ReadOutcome>) returns (rd: int, rest: seq<ReadOutcome>)
    requires 1 <= buf.Length == |b0| && buf[..] == Store(b0, 0, [buf[0]])
    modifies buf
    ensures var r := ReadUpTo(s, 1);
      && rd == r.rd && rest == r.rest
      && buf[0] == (if rd > 0 then r.data[0] else old(buf[0]))
      && buf[..] == Store(b0, 0, [buf[0]])
  {
    ghost var r := ReadUpTo(s, 1);
    ghost var before := buf[..];
    rd, rest := ReadInto(buf, 0, 1, s);
    StoreAt(before, 0, r.data);
    StoreAt(b0, 0, [old(buf[0])]);
    StoreAt(b0, 0, [buf[0]]);
    assert buf[..] == Store(b0, 0, [buf[0]]);
  }

  /** The sync loop of read_hci_event (uim.c lines 98-110): one-byte reads
      into buf[0] until the prefix arrives or the retry budget is spent. */
  method SyncLoop(buf: array<byte>, s: seq<ReadOutcome>) returns (ok: bool, rest: seq<ReadOutcome>)
    requires 1 <= buf.Length
    modifies buf
    ensures var r := SyncScan(s, 0, old(buf[0]));
      ok == r.ok && rest == r.rest && buf[..] == Store(old(buf[..]), 0, [r.head])
  {
    var rd: int;
    var retries := 0;
    ghost var b0 := buf[..];
    StoreAt(b0, 0, [buf[0]]);
    assert b0 == Store(b0, 0, [buf[0]]);
    rest := s;
    while true
      invariant retries <= SYNC_RETRIES
      invariant SyncScan(rest, retries, buf[0]) == SyncScan(s, 0, b0[0])
      invariant buf[..] == Store(b0, 0, [buf[0]])
      decreases |rest|, HeadLen(rest), SYNC_RETRIES - retries
    {
      rd, rest := ReadOne(buf, b0, rest);
      if rd <= 0 {
        var tried := retries;
        retries := retries + 1;
        if tried < SYNC_RETRIES {
          continue;  // nanosleep(50 ms), then read again
        }
      }
      if retries >= SYNC_RETRIES {
        return false, rest;
      }
      if buf[0] == RESP_PREFIX {
        return true, rest;
      }
    }
  }

  /** One read of a fill loop: read(fd, buf + off + count, target - count)
      with count == |got| bytes already stored. */
  method FillOnce(buf: array<byte>, off: nat, target: nat, count: nat, ghost b0: seq<byte>, ghost got: seq<byte>,
                  s: seq<ReadOutcome>) returns (rd: int, rest: seq<ReadOutcome>, ghost got': seq<byte>)
    requires off + target <= buf.Length && count == |got| < target
    requires |b0| == buf.Length && buf[..] == Store(b0, off, got)
    modifies buf
    ensures |got'| <= target && (rd <= 0 ==> got' == got)
    ensures rd > 0 ==> |got'| == |got| + rd
    ensures FillTo(s, got, target) == if rd <= 0 then Fill(false, got, rest) else FillTo(rest, got', target)
    ensures buf[..] == Store(b0, off, got')
  {
    rd, rest := ReadInto(buf, off + count, target - count, s);
    ghost var data := ReadUpTo(s, target - count).data;
    FillStep(s, got, target);
    StoreTwice(b0, off, got, data);
    got' := got + data;
    assert rd <= 0 ==> got' == got;
  }

  /** The two fill loops of read_hci_event (uim.c lines 114-119 and 127-132):
      reads into buf[off..] until target bytes are stored; a failed or empty
      read gives up at once. */
  method FillLoop(buf: array<byte>, off: nat, target: nat, s: seq<ReadOutcome>) returns (ok: bool, rest: seq<ReadOutcome>)
    requires off + target <= buf.Length
    modifies buf
    ensures var f := FillTo(s, [], target);
      ok == f.ok && rest == f.rest && buf[..] == Store(old(buf[..]), off, f.got)
  {
    var count := 0;
    ghost var got: seq<byte> := [];
    ghost var b0 := buf[..];
    rest := s;
    while count < target
      invariant count == |got| <= target
      invariant FillTo(rest, got, target) == FillTo(s, [], target)
      invariant buf[..] == Store(b0, off, got)
      decreases target - count
    {
      var rd: int;
      rd, rest, got := FillOnce(buf, off, target, count, b0, got, rest);
      if rd <= 0 {
        return false, rest;
      }
      count := count + rd;
    }
    return true, rest;
  }

  /** The sync loop and the header fill of read_hci_event (uim.c lines
      98-119): buf[0] ends as the last byte the scan read, and the event
      code and parameter length go to buf[1] and buf[2]. */
  method ReadHeader(buf: array<byte>, s: seq<ReadOutcome>) returns (ok: bool, rest: seq<ReadOutcome>)
    requires 3 <= buf.Length
    modifies buf
    ensures var sy := SyncScan(s, 0, old(buf[0]));
      var hd := FillTo(sy.rest, [], 2);
      && (ok <==> sy.ok && hd.ok)
      && (!sy.ok ==> rest == sy.rest && buf[..] == Store(old(buf[..]), 0, [sy.head]))
      && (sy.ok ==> rest == hd.rest && buf[..] == Store(old(buf[..]), 0, [RESP_PREFIX] + hd.got))
  {
    ghost var b0 := buf[..];
    ok, rest := SyncLoop(buf, s);
    if !ok {
      return;
    }
    ghost var synced := rest;
    ok, rest := FillLoop(buf, 1, 2, rest);
    StoreTwice(b0, 0, [RESP_PREFIX], FillTo(synced, [], 2).got);
  }

  /** The parameter fill of read_hci_event, the header being in buf[1..3]. */
  method ReadParams(buf: array<byte>, size: int, ghost b0: seq<byte>, ghost header: seq<byte>, s: seq<ReadOutcome>)
    returns (ret: int, rest: seq<ReadOutcome>)
    requires 3 <= buf.Length && size <= buf.Length && |b0| == buf.Length && |header| == 2
    requires buf[..] == Store(b0, 0, [RESP_PREFIX] + header)
    modifies buf
    ensures var e := ParamsEvent(header, s, size);
      && ret == e.ret && rest == e.rest && 1 + |e.body| <= buf.Length
      && buf[..] == Store(b0, 0, [RESP_PREFIX] + e.body)
  {
    StoreAt(b0, 0, [RESP_PREFIX] + header);
    assert buf[2] == header[1];
    var remain := if buf[2] < size - 3 then buf[2] else size - 3;
    if remain <= 0 {
      return 3, s;
    }
    var ok: bool;
    ok, rest := FillLoop(buf, 3, remain, s);
    ghost var pm := FillTo(s, [], remain);
    StoreTwice(b0, 0, [RESP_PREFIX] + header, pm.got);
    assert [RESP_PREFIX] + header + pm.got == [RESP_PREFIX] + (header + pm.got);
    ret := if ok then 3 + remain else -1;
  }

  /** read_hci_event: the buffer has physical room for at least the 3 header
      bytes and size is at most its length. */
  method ReadHciEvent(buf: array<byte>, size: int, s: seq<ReadOutcome>) returns (ret: int, rest: seq<ReadOutcome>)
    requires 3 <= buf.Length && size <= buf.Length
    modifies buf
    ensures var e := ReadEvent(s, size, old(buf[0]));
      && ret == e.ret && rest == e.rest && 1 + |e.body| <= buf.Length
      && buf[..] == Store(old(buf[..]), 0, [e.head] + e.body)
  {
    if size <= 0 {
      return -1, s;
    }
    ghost var b0 := buf[..];
    ghost var sy := SyncScan(s, 0, buf[0]);
    var ok: bool;
    ok, rest := ReadHeader(buf, s);
    if !ok {
      return -1, rest;
    }
    ret, rest := ReadParams(buf, size, b0, FillTo(sy.rest, [], 2).got, rest);
  }
}
