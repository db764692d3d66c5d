/** read_command_complete (uim.c lines 143-187): the daemon accepts a reply
    to a command only if it is a Command Complete event (Bluetooth Core
    Specification, Volume 2 Part E, section 7.7.14) for that command's
    opcode, with status 0. */
module CommandComplete {
  import opened Bytes
  import opened EventReader

  /** H4 indicator of an event packet (uim.h, not part of this model). */
  const HCI_EVENT_PKT: byte
  /** Event code of Command Complete (uim.h). */
  const EVT_CMD_COMPLETE: byte
  /** The bytes of command_complete_t that read_command_complete looks at:
      indicator, event code, parameter length, Num_HCI_Command_Packets, the
      opcode (2 bytes) and the status. */
  const CHECKED_LEN: nat := 7
  /** A record size that holds at least those fields. */
  type RecordSize = n: nat | n >= CHECKED_LEN witness CHECKED_LEN
  /** sizeof(command_complete_t) (uim.h, not part of this model): at least
      CHECKED_LEN, since uim.c reads all of those fields. */
  const RESPONSE_SIZE: RecordSize

  /** The checks of uim.c lines 156-186 on the bytes read into the record:
      an event packet, a Command Complete event, at least 4 parameters, the
      awaited opcode echoed, status 0. */
  predicate IsCompletion(rec: seq<byte>, op: u16)
  {
    && |rec| >= 3
    && rec[0] == HCI_EVENT_PKT
    && rec[1] == EVT_CMD_COMPLETE
    && rec[2] >= 4
    && |rec| >= CHECKED_LEN
    && FromLe16(rec[4], rec[5]) == op
    && rec[6] == 0
  }

  /** Whether the next reply on the descriptor completes op, and what the
      descriptor still holds after reading it. */
  datatype Reply = Reply(ok: bool, rest: seq<ReadOutcome>)

  /** The reply read_command_complete reads: one event into a
      RESPONSE_SIZE-byte record. */
  function AwaitCompletion(s: seq<ReadOutcome>, op: u16): (r: Reply)
    ensures r.ok ==> HCI_EVENT_PKT == RESP_PREFIX
  {
    var e := ReadEvent(s, RESPONSE_SIZE, 0);
    Reply(e.ret >= 0 && IsCompletion([e.head] + e.body, op), e.rest)
  }

  /** read_command_complete(fd, opcode): 0 when the reply completes the
      command, -1 for a transport failure or any mismatch. */
  method ReadCommandComplete(s: seq<ReadOutcome>, op: u16) returns (r: int, rest: seq<ReadOutcome>)
    ensures r == 0 || r == -1
    ensures r == 0 <==> AwaitCompletion(s, op).ok
    ensures rest == AwaitCompletion(s, op).rest
  {
    var resp := new byte[RESPONSE_SIZE](_ => 0);
    ghost var b0 := resp[..];
    ghost var e := ReadEvent(s, RESPONSE_SIZE, 0);
    var n: int;
    n, rest := ReadHciEvent(resp, RESPONSE_SIZE, s);
    ghost var rec := [e.head] + e.body;
    StoreAt(b0, 0, rec);
    if n < 0 {
      return -1, rest;
    }
    assert resp[0] == rec[0] && resp[1] == rec[1] && resp[2] == rec[2];
    if resp[0] != HCI_EVENT_PKT {
      return -1, rest;
    }
    if resp[1] != EVT_CMD_COMPLETE {
      return -1, rest;
    }
    if resp[2] < 4 {
      return -1, rest;
    }
    assert |rec| >= CHECKED_LEN;
    assert resp[4] == rec[4] && resp[5] == rec[5] && resp[6] == rec[6];
    if FromLe16(resp[4], resp[5]) != op {
      return -1, rest;
    }
    return if resp[6] == 0 then 0 else -1, rest;
  }

  /** A Command Complete event as a controller sends it over H4: indicator,
      event code, parameter length, Num_HCI_Command_Packets, the opcode low
      byte first, the status and the return parameters. */
  function CompletionEvent(ncmd: byte, op: u16, status: byte, params: seq<byte>): (f: seq<byte>)
    requires |params| <= 251
    ensures |f| == 7 + |params| && f[2] == 4 + |params|
  {
    [HCI_EVENT_PKT, EVT_CMD_COMPLETE, 4 + |params|, ncmd] + Le16(op) + [status] + params
  }

  /** The first prefix byte of noise + f, with no prefix in the noise, is f[0]. */
  lemma PrefixAfterNoise(noise: seq<byte>, f: seq<byte>, more: seq<ReadOutcome>)
    requires RESP_PREFIX !in noise && f != [] && f[0] == RESP_PREFIX
    ensures FirstPrefix([Chunk(noise + f)] + more) == Some((0, Requeue(f[1..], more)))
  {
    var d := noise + f;
    var t := [Chunk(d)] + more;
    assert t[0] == Chunk(d) && t[1..] == more;
    assert d[|noise|] == RESP_PREFIX;
    var i := IndexOf(d, RESP_PREFIX);
    assert i <= |noise|;
    assert i == |noise|;
    assert d[i + 1..] == f[1..];
  }

  /** A reply that arrives after any amount of noise, as one chunk, is
      accepted exactly when it echoes the awaited opcode with status 0 (the
      event indicator being the sync byte, as H4 has it). */
  lemma CompletionAfterNoise(noise: seq<byte>, ncmd: byte, echoed: u16, status: byte,
                             params: seq<byte>, more: seq<ReadOutcome>, op: u16)
    requires HCI_EVENT_PKT == RESP_PREFIX && RESP_PREFIX !in noise && |params| <= 251
    ensures AwaitCompletion([Chunk(noise + CompletionEvent(ncmd, echoed, status, params))] + more, op).ok
            <==> echoed == op && status == 0
  {
    var f := CompletionEvent(ncmd, echoed, status, params);
    var s := [Chunk(noise + f)] + more;
    PrefixAfterNoise(noise, f, more);
    ReadEventReference(s, RESPONSE_SIZE, 0);
    DeliveredRequeue(f[1..], more);
    var d := f[1..] + Delivered(more);
    var remain := Remain(d[1], RESPONSE_SIZE);
    assert d[1] == f[2] && 4 <= remain <= 4 + |params|;
    var e := ReadEvent(s, RESPONSE_SIZE, 0);
    assert e.body == d[..2 + remain];
    var rec := [e.head] + e.body;
    assert rec[1] == f[1] && rec[2] == f[2] && rec[4] == f[4] && rec[5] == f[5] && rec[6] == f[6];
    assert f[4] == Le16(echoed)[0] && f[5] == Le16(echoed)[1];
  }

  /** A link that fails SYNC_RETRIES reads before the prefix arrives never
      yields an accepted reply, whatever follows. */
  lemma StalledLinkRejected(more: seq<ReadOutcome>, op: u16)
    ensures !AwaitCompletion([Failed, Failed, Failed, Failed] + more, op).ok
  {
    var s := [Failed, Failed, Failed, Failed] + more;
    assert s[1..] == [Failed, Failed, Failed] + more;
    assert s[1..][1..] == [Failed, Failed] + more;
    assert s[1..][1..][1..] == [Failed] + more;
    assert s[1..][1..][1..][1..] == more;
    var p := FirstPrefix(more);
    assert FirstPrefix([Failed] + more) == OneMoreFailure(p);
    assert FirstPrefix([Failed, Failed] + more) == OneMoreFailure(OneMoreFailure(p));
    assert FirstPrefix(s) == OneMoreFailure(OneMoreFailure(OneMoreFailure(OneMoreFailure(p))));
    ReadEventReference(s, RESPONSE_SIZE, 0);
  }
}
