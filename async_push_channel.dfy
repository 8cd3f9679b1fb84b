/** The asynchronous push channels: a flush that keeps the round counter, and the fast variant with its
    flat receive buffer and its in-band stop sentinel. */
module Channels {
  import opened Seqs
  import opened BinStream
  import opened Mailbox
  import opened ObjList
  import opened WorkerInfo

  // ---------------------------------------------------------------------------------------------
  // Flush

  /** What one flush hands to the mailbox: at step `i` the buffer of worker `(start + i) mod n`,
      whole, empty or not, tagged with the channel id and the unchanged round counter. */
  function OutSends<M>(buffers: seq<BinStream<M>>, start: nat, channelId: nat, progress: nat): (r: seq<Delivery<M>>)
    ensures |r| == |buffers|
  {
    seq(|buffers|, i requires 0 <= i < |buffers| =>
      var d := (start + i) % |buffers|;
      Delivery(d, channelId, progress, buffers[d]))
  }

  lemma MulAtLeast(n: int, k: int)
    requires n > 0 && k >= 1
    ensures n * k >= n
    decreases k
  {
    if k > 1 {
      MulAtLeast(n, k - 1);
      assert n * k == n * (k - 1) + n;
    }
  }

  /** Euclidean division has a unique quotient and remainder. */
  lemma DivModUnique(x: int, n: int, q: int, r: int)
    requires n > 0 && 0 <= r < n && x == n * q + r
    ensures x % n == r
  {
    var q0, r0 := x / n, x % n;
    assert x == n * q0 + r0;
    assert n * (q - q0) == r0 - r;
    if q - q0 >= 1 {
      MulAtLeast(n, q - q0);
    } else if q0 - q >= 1 {
      MulAtLeast(n, q0 - q);
    }
  }

  /** The destination visited at step `i` is the one whose rotated offset is `i`. */
  lemma RotateBack(g: nat, i: nat, n: nat)
    requires i < n
    ensures ((g + i) % n - g) % n == i
  {
    var t := (g + i) / n;
    assert g + i == n * t + (g + i) % n;
    DivModUnique((g + i) % n - g, n, -t, i);
  }

  /** Every destination is reached at the step given by its rotated offset. */
  lemma RotateForth(g: nat, d: nat, n: nat)
    requires d < n
    ensures (g + (d - g) % n) % n == d
  {
    var t := (d - g) / n;
    assert d - g == n * t + (d - g) % n;
    DivModUnique(g + (d - g) % n, n, -t, d);
  }

  lemma OutSendsAt<M>(buffers: seq<BinStream<M>>, start: nat, channelId: nat, progress: nat, i: nat)
    requires i < |buffers|
    ensures OutSends(buffers, start, channelId, progress)[i]
      == Delivery((start + i) % |buffers|, channelId, progress, buffers[(start + i) % |buffers|])
  {
  }

  /** A flush reaches every destination `0 .. n-1`, at the step given by its rotated offset, with that
      destination's whole buffer, tagged with the channel id and the round counter. */
  lemma OutSendsReachEveryDestination<M>(buffers: seq<BinStream<M>>, start: nat, channelId: nat, progress: nat, d: nat)
    requires d < |buffers|
    ensures 0 <= (d - start) % |buffers| < |buffers|
    ensures OutSends(buffers, start, channelId, progress)[(d - start) % |buffers|] == Delivery(d, channelId, progress, buffers[d])
  {
    RotateForth(start, d, |buffers|);
    OutSendsAt(buffers, start, channelId, progress, (d - start) % |buffers|);
  }

  /** No destination is sent to twice by one flush. */
  lemma OutSendsDistinct<M>(buffers: seq<BinStream<M>>, start: nat, channelId: nat, progress: nat, i: nat, j: nat)
    requires i < j < |buffers|
    ensures OutSends(buffers, start, channelId, progress)[i].dst != OutSends(buffers, start, channelId, progress)[j].dst
  {
    OutSendsAt(buffers, start, channelId, progress, i);
    OutSendsAt(buffers, start, channelId, progress, j);
    RotateBack(start, i, |buffers|);
    RotateBack(start, j, |buffers|);
  }

  class AsyncPushChannel<M> {
    const globalId: nat
    const channelId: nat
    const mailbox: Mailbox<M>
    /** The round counter; the asynchronous flush never advances it. */
    var progress: nat
    /** One outgoing buffer per destination worker, indexed by global worker id. */
    var sendBuffer: seq<BinStream<M>>

    constructor (globalId: nat, channelId: nat, numWorkers: nat, mailbox: Mailbox<M>)
      ensures this.globalId == globalId && this.channelId == channelId && this.mailbox == mailbox
      ensures progress == 0
      ensures |sendBuffer| == numWorkers && forall d :: 0 <= d < numWorkers ==> sendBuffer[d] == []
    {
      this.globalId := globalId;
      this.channelId := channelId;
      this.mailbox := mailbox;
      progress := 0;
      sendBuffer := seq(numWorkers, _ => []);
    }

    /** Sends every per-destination buffer, starting at this worker's own id, and purges it. */
    method Out()
      modifies this`sendBuffer, mailbox
      ensures progress == old(progress)
      ensures |sendBuffer| == |old(sendBuffer)|
      ensures forall d :: 0 <= d < |sendBuffer| ==> sendBuffer[d] == []
      ensures mailbox.log == old(mailbox.log) + OutSends(old(sendBuffer), globalId, channelId, progress)
    {
      var n := |sendBuffer|;
      var start := globalId;
      var i := 0;
      while i < n
        invariant 0 <= i <= n && |sendBuffer| == n
        invariant mailbox.log == old(mailbox.log) + OutSends(old(sendBuffer), start, channelId, progress)[..i]
        invariant forall d :: 0 <= d < n ==> sendBuffer[d] == if (d - start) % n < i then [] else old(sendBuffer)[d]
      {
        var dst := (start + i) % n;
        RotateBack(start, i, n);
        assert sendBuffer[dst] == old(sendBuffer)[dst];
        mailbox.Send(dst, channelId, progress, sendBuffer[dst]);
        ghost var prev := sendBuffer;
        sendBuffer := sendBuffer[dst := []];
        forall d | 0 <= d < n
          ensures sendBuffer[d] == if (d - start) % n < i + 1 then [] else old(sendBuffer)[d]
        {
          if d != dst {
            RotateForth(start, d, n);
            assert sendBuffer[d] == prev[d];
          }
        }
        OutSendsAt(old(sendBuffer), start, channelId, progress, i);
        assert OutSends(old(sendBuffer), start, channelId, progress)[..i + 1]
          == OutSends(old(sendBuffer), start, channelId, progress)[..i] + [Delivery(dst, channelId, progress, old(sendBuffer)[dst])];
        i := i + 1;
      }
      assert OutSends(old(sendBuffer), start, channelId, progress)[..n] == OutSends(old(sendBuffer), start, channelId, progress);
    }
  }

  // ---------------------------------------------------------------------------------------------
  // Receive path of the fast channel

  /** Everything decoding touches: the destination table's keys, the flat receive buffer and the stop flag. */
  datatype RecvState<M> = RecvState(table: seq<int>, pairs: seq<(nat, M)>, stop: bool)

  /** Decoding one record: the sentinel raises the stop flag; any other message is tagged with the index
      of its key's object, which is created from the key when absent. */
  function Step<M(==)>(s: RecvState<M>, r: Record<M>, stopMsg: M): RecvState<M> {
    if r.msg == stopMsg then s.(stop := true)
    else match Find(s.table, r.key)
      case Some(idx) => s.(pairs := s.pairs + [(idx, r.msg)])
      case None => s.(table := s.table + [r.key], pairs := s.pairs + [(|s.table|, r.msg)])
  }

  /** Decoding a whole stream, front to back. */
  function Process<M(==)>(s: RecvState<M>, bin: BinStream<M>, stopMsg: M): RecvState<M>
    decreases |bin|
  {
    if |bin| == 0 then s else Process(Step(s, bin[0], stopMsg), bin[1..], stopMsg)
  }

  /** The records that are not the sentinel, in stream order. */
  function Payload<M(==)>(bin: BinStream<M>, stopMsg: M): (r: BinStream<M>)
    ensures |r| <= |bin|
  {
    if |bin| == 0 then []
    else if bin[0].msg == stopMsg then Payload(bin[1..], stopMsg)
    else [bin[0]] + Payload(bin[1..], stopMsg)
  }

  /** One record, absent key: exactly one object, built from the key, is added, and its index is the
      table's old size. Present key: the table is unchanged and the index is the object's position. */
  lemma StepRecord<M>(s: RecvState<M>, r: Record<M>, stopMsg: M)
    ensures r.msg == stopMsg ==> Step(s, r, stopMsg) == s.(stop := true)
    ensures r.msg != stopMsg && r.key !in s.table ==>
      Step(s, r, stopMsg) == RecvState(s.table + [r.key], s.pairs + [(|s.table|, r.msg)], s.stop)
    ensures r.msg != stopMsg && r.key in s.table ==>
      exists idx :: 0 <= idx < |s.table| && s.table[idx] == r.key &&
        Step(s, r, stopMsg) == RecvState(s.table, s.pairs + [(idx, r.msg)], s.stop)
  {
    if r.msg != stopMsg && r.key in s.table {
      var idx := Find(s.table, r.key).value;
      assert s.table[idx] == r.key;
    }
  }

  /** The stop flag ends up raised exactly when it was raised already or the stream holds the sentinel. */
  lemma {:induction false} ProcessStop<M>(s: RecvState<M>, bin: BinStream<M>, stopMsg: M)
    ensures Process(s, bin, stopMsg).stop <==> s.stop || exists i :: 0 <= i < |bin| && bin[i].msg == stopMsg
    decreases |bin|
  {
    if |bin| != 0 {
      ProcessStop(Step(s, bin[0], stopMsg), bin[1..], stopMsg);
      if exists i :: 0 <= i < |bin| && bin[i].msg == stopMsg {
        var i :| 0 <= i < |bin| && bin[i].msg == stopMsg;
        if i > 0 {
          assert bin[1..][i - 1].msg == stopMsg;
        }
      }
      if exists i :: 0 <= i < |bin[1..]| && bin[1..][i].msg == stopMsg {
        var i :| 0 <= i < |bin[1..]| && bin[1..][i].msg == stopMsg;
        assert bin[i + 1].msg == stopMsg;
      }
    }
  }

  /** What one record does to the table and the receive buffer. */
  lemma StepGrows<M>(s: RecvState<M>, r: Record<M>, stopMsg: M)
    ensures var s' := Step(s, r, stopMsg);
      && |s.table| <= |s'.table| && s'.table[..|s.table|] == s.table
      && |s.pairs| <= |s'.pairs| && s'.pairs[..|s.pairs|] == s.pairs
      && (r.msg == stopMsg ==> s'.table == s.table && s'.pairs == s.pairs)
      && (r.msg != stopMsg ==>
            && |s'.pairs| == |s.pairs| + 1 && s'.pairs[|s.pairs|].1 == r.msg
            && s'.pairs[|s.pairs|].0 < |s'.table| && s'.table[s'.pairs[|s.pairs|].0] == r.key)
      && (forall x :: x in s'.table ==> x in s.table || (r.msg != stopMsg && x == r.key))
      && (NoDup(s.table) ==> NoDup(s'.table))
  {
    var s' := Step(s, r, stopMsg);
    assert s'.table[..|s.table|] == s.table;
    assert s'.pairs[..|s.pairs|] == s.pairs;
  }

  /** Decoding only appends, to the table and to the receive buffer, one pair per payload record. */
  lemma {:induction false} ProcessGrows<M>(s: RecvState<M>, bin: BinStream<M>, stopMsg: M)
    ensures var r := Process(s, bin, stopMsg);
      && |r.pairs| == |s.pairs| + |Payload(bin, stopMsg)|
      && r.pairs[..|s.pairs|] == s.pairs
      && |s.table| <= |r.table| && r.table[..|s.table|] == s.table
    decreases |bin|
  {
    if |bin| != 0 {
      var s' := Step(s, bin[0], stopMsg);
      StepGrows(s, bin[0], stopMsg);
      ProcessGrows(s', bin[1..], stopMsg);
      var r := Process(s', bin[1..], stopMsg);
      assert r.table[..|s.table|] == r.table[..|s'.table|][..|s.table|];
      assert r.pairs[..|s.pairs|] == r.pairs[..|s'.pairs|][..|s.pairs|];
    }
  }

  /** Pair `i` of the receive buffer carries the record's message and names an object with its key. */
  ghost predicate Tagged<M>(r: RecvState<M>, i: nat, rec: Record<M>) {
    i < |r.pairs| && r.pairs[i].1 == rec.msg && r.pairs[i].0 < |r.table| && r.table[r.pairs[i].0] == rec.key
  }

  /** The k-th payload record becomes the k-th new pair, tagged with an object of its key. */
  lemma {:induction false} ProcessTags<M>(s: RecvState<M>, bin: BinStream<M>, stopMsg: M)
    ensures forall k :: 0 <= k < |Payload(bin, stopMsg)| ==>
      Tagged(Process(s, bin, stopMsg), |s.pairs| + k, Payload(bin, stopMsg)[k])
    decreases |bin|
  {
    if |bin| != 0 {
      var s' := Step(s, bin[0], stopMsg);
      StepGrows(s, bin[0], stopMsg);
      ProcessTags(s', bin[1..], stopMsg);
      var r := Process(s', bin[1..], stopMsg);
      assert Process(s, bin, stopMsg) == r;
      var p := Payload(bin, stopMsg);
      var p' := Payload(bin[1..], stopMsg);
      if bin[0].msg != stopMsg {
        assert p == [bin[0]] + p';
        forall k | 0 <= k < |p|
          ensures Tagged(r, |s.pairs| + k, p[k])
        {
          if k == 0 {
            FirstTag(s', bin[1..], stopMsg, |s.pairs|);
          } else {
            assert Tagged(r, |s'.pairs| + (k - 1), p'[k - 1]);
            assert |s.pairs| + k == |s'.pairs| + (k - 1);
          }
        }
      } else {
        assert p == p';
        forall k | 0 <= k < |p|
          ensures Tagged(r, |s.pairs| + k, p[k])
        {
          assert Tagged(r, |s'.pairs| + k, p'[k]);
        }
      }
    }
  }

  /** A pair already in the receive buffer, and the object it names, stay where they are. */
  lemma FirstTag<M>(s: RecvState<M>, bin: BinStream<M>, stopMsg: M, i: nat)
    requires i < |s.pairs| && s.pairs[i].0 < |s.table|
    ensures var r := Process(s, bin, stopMsg);
      i < |r.pairs| && r.pairs[i] == s.pairs[i] && s.pairs[i].0 < |r.table| && r.table[s.pairs[i].0] == s.table[s.pairs[i].0]
  {
    ProcessGrows(s, bin, stopMsg);
    var r := Process(s, bin, stopMsg);
    assert r.pairs[i] == r.pairs[..|s.pairs|][i];
    assert r.table[s.pairs[i].0] == r.table[..|s.table|][s.pairs[i].0];
  }

  /** Every key in the table was there before or is the key of a payload record. */
  lemma {:induction false} ProcessKeys<M>(s: RecvState<M>, bin: BinStream<M>, stopMsg: M)
    ensures var r := Process(s, bin, stopMsg); var p := Payload(bin, stopMsg);
      forall x :: x in r.table ==> x in s.table || exists k :: 0 <= k < |p| && p[k].key == x
    decreases |bin|
  {
    if |bin| != 0 {
      var s' := Step(s, bin[0], stopMsg);
      StepGrows(s, bin[0], stopMsg);
      ProcessKeys(s', bin[1..], stopMsg);
      var r := Process(s', bin[1..], stopMsg);
      assert Process(s, bin, stopMsg) == r;
      var p := Payload(bin, stopMsg);
      var p' := Payload(bin[1..], stopMsg);
      if bin[0].msg == stopMsg {
        assert p == p';
      } else {
        assert p == [bin[0]] + p';
      }
      forall x | x in r.table ensures x in s.table || exists k :: 0 <= k < |p| && p[k].key == x {
        if x !in s'.table {
          var k :| 0 <= k < |p'| && p'[k].key == x;
          if bin[0].msg != stopMsg {
            assert p[k + 1] == p'[k];
            assert 0 <= k + 1 < |p| && p[k + 1].key == x;
          } else {
            assert 0 <= k < |p| && p[k].key == x;
          }
        } else if x !in s.table {
          assert 0 < |p| && p[0].key == x;
        }
      }
      assert forall x :: x in Process(s, bin, stopMsg).table ==> x in s.table || exists k :: 0 <= k < |Payload(bin, stopMsg)| && Payload(bin, stopMsg)[k].key == x;
    }
  }

  /** Keys stay unique. */
  lemma {:induction false} ProcessNoDup<M>(s: RecvState<M>, bin: BinStream<M>, stopMsg: M)
    requires NoDup(s.table)
    ensures NoDup(Process(s, bin, stopMsg).table)
    decreases |bin|
  {
    if |bin| != 0 {
      StepGrows(s, bin[0], stopMsg);
      ProcessNoDup(Step(s, bin[0], stopMsg), bin[1..], stopMsg);
    }
  }

  /** Each non-sentinel record appends exactly one (index, message) pair at the end of the receive buffer,
      in stream order; the index names an object with the record's key; old objects keep their indices,
      new objects are appended, and keys stay unique. */
  lemma ProcessPairs<M>(s: RecvState<M>, bin: BinStream<M>, stopMsg: M)
    ensures var r := Process(s, bin, stopMsg); var p := Payload(bin, stopMsg);
      && |r.pairs| == |s.pairs| + |p|
      && r.pairs[..|s.pairs|] == s.pairs
      && |s.table| <= |r.table| && r.table[..|s.table|] == s.table
      && (forall k :: 0 <= k < |p| ==> Tagged(r, |s.pairs| + k, p[k]))
      && (forall x :: x in r.table ==> x in s.table || exists k :: 0 <= k < |p| && p[k].key == x)
      && (NoDup(s.table) ==> NoDup(r.table))
  {
    ProcessGrows(s, bin, stopMsg);
    ProcessTags(s, bin, stopMsg);
    ProcessKeys(s, bin, stopMsg);
    if NoDup(s.table) {
      ProcessNoDup(s, bin, stopMsg);
    }
  }

  /** No sentinel ever reaches the receive buffer. */
  lemma {:induction false} ProcessNoSentinel<M>(s: RecvState<M>, bin: BinStream<M>, stopMsg: M)
    requires forall i :: 0 <= i < |s.pairs| ==> s.pairs[i].1 != stopMsg
    ensures forall i :: 0 <= i < |Process(s, bin, stopMsg).pairs| ==> Process(s, bin, stopMsg).pairs[i].1 != stopMsg
    decreases |bin|
  {
    if |bin| == 0 {
      assert Process(s, bin, stopMsg) == s;
    } else {
      var s' := Step(s, bin[0], stopMsg);
      assert forall i :: 0 <= i < |s'.pairs| ==> s'.pairs[i].1 != stopMsg by {
        if bin[0].msg != stopMsg {
          match Find(s.table, bin[0].key)
          case Some(idx) => assert s'.pairs == s.pairs + [(idx, bin[0].msg)];
          case None => assert s'.pairs == s.pairs + [(|s.table|, bin[0].msg)];
        }
      }
      ProcessNoSentinel(s', bin[1..], stopMsg);
      assert Process(s, bin, stopMsg) == Process(s', bin[1..], stopMsg);
    }
  }

  /** `cur` is `orig` with `rec` appended to buffer `d` once for every occurrence of `d` in `done`. */
  ghost predicate Appended<M>(cur: seq<BinStream<M>>, orig: seq<BinStream<M>>, done: seq<nat>, rec: Record<M>) {
    |cur| == |orig| && forall d :: 0 <= d < |cur| ==> cur[d] == orig[d] + Repeat(rec, multiset(done)[d])
  }

  lemma AppendedStep<M>(cur: seq<BinStream<M>>, orig: seq<BinStream<M>>, done: seq<nat>, rec: Record<M>, id: nat)
    requires Appended(cur, orig, done, rec) && id < |cur|
    ensures Appended(cur[id := cur[id] + [rec]], orig, done + [id], rec)
  {
    var next := cur[id := cur[id] + [rec]];
    forall d | 0 <= d < |next| ensures next[d] == orig[d] + Repeat(rec, multiset(done + [id])[d]) {
      assert multiset(done + [id])[d] == multiset(done)[d] + (if d == id then 1 else 0);
    }
  }

  /** Once every worker of a valid topology has been enumerated, each of their buffers got exactly one record. */
  lemma AppendedOnce<M>(cur: seq<BinStream<M>>, orig: seq<BinStream<M>>, w: WorkerInfo, rec: Record<M>)
    requires w.Valid(|orig|) && Appended(cur, orig, w.AllIds(), rec)
    ensures |cur| == |orig|
    ensures forall d :: 0 <= d < |cur| ==> cur[d] == orig[d] + (if d in w.AllIds() then [rec] else [])
  {
    AllIdsNoDup(w, |orig|);
    forall d | 0 <= d < |cur| ensures cur[d] == orig[d] + (if d in w.AllIds() then [rec] else []) {
      NoDupCount(w.AllIds(), d);
    }
  }

  class FastAsyncPushChannel<M(==)> {
    /** The asynchronous channel this one extends: its send buffers, mailbox and tags. */
    const channel: AsyncPushChannel<M>
    /** The destination object table (the same table as the source one). */
    const dst: ObjList
    const workerInfo: WorkerInfo
    const stopMsg: M
    var fastRecvBuffer: seq<(nat, M)>
    var stop: bool

    ghost predicate Valid()
      reads this, channel, dst
    {
      workerInfo.Valid(|channel.sendBuffer|) && dst.Valid()
    }

    /** The state the receive path works on. */
    ghost function State(): RecvState<M>
      reads this, dst
    {
      RecvState(dst.objects, fastRecvBuffer, stop)
    }

    constructor (channel: AsyncPushChannel<M>, dst: ObjList, workerInfo: WorkerInfo, stopMsg: M)
      requires workerInfo.Valid(|channel.sendBuffer|) && dst.Valid()
      ensures Valid()
      ensures this.channel == channel && this.dst == dst && this.workerInfo == workerInfo && this.stopMsg == stopMsg
      ensures fastRecvBuffer == [] && !stop
    {
      this.channel := channel;
      this.dst := dst;
      this.workerInfo := workerInfo;
      this.stopMsg := stopMsg;
      fastRecvBuffer := [];
      stop := false;
    }

    /** Appends the record (key 0, sentinel) once to the buffer of every worker of the topology, keeps what
        was buffered before, and raises the local stop flag. */
    method BroadcastStopMsg()
      requires Valid()
      modifies channel`sendBuffer, this`stop
      ensures Valid() && stop
      ensures |channel.sendBuffer| == |old(channel.sendBuffer)|
      ensures forall d :: 0 <= d < |channel.sendBuffer| ==>
        channel.sendBuffer[d] == old(channel.sendBuffer)[d] + (if d in workerInfo.AllIds() then [Record(0, stopMsg)] else [])
    {
      ghost var ids := workerInfo.globalIds;
      ghost var orig := channel.sendBuffer;
      ghost var done: seq<nat> := [];
      var i := 0;
      while i < workerInfo.NumProcesses()
        invariant 0 <= i <= |ids|
        invariant done == Flatten(ids[..i])
        invariant Appended(channel.sendBuffer, orig, done, Record(0, stopMsg))
      {
        done := SendStopToProcess(i, orig, done);
        assert ids[..i + 1][..i] == ids[..i];
        i := i + 1;
      }
      assert ids[..i] == ids;
      stop := true;
      AppendedOnce(channel.sendBuffer, orig, workerInfo, Record(0, stopMsg));
    }

    /** The inner loop of the broadcast: one process's local workers. */
    method SendStopToProcess(i: nat, ghost orig: seq<BinStream<M>>, ghost done: seq<nat>) returns (ghost done': seq<nat>)
      requires i < workerInfo.NumProcesses() && workerInfo.Valid(|orig|)
      requires Appended(channel.sendBuffer, orig, done, Record(0, stopMsg))
      modifies channel`sendBuffer
      ensures done' == done + workerInfo.globalIds[i]
      ensures Appended(channel.sendBuffer, orig, done', Record(0, stopMsg))
    {
      ghost var row := workerInfo.globalIds[i];
      done' := done;
      var recvProcNumWorker := workerInfo.NumLocalWorkers(i);
      var j := 0;
      while j < recvProcNumWorker
        invariant 0 <= j <= |row|
        invariant done' == done + row[..j]
        invariant Appended(channel.sendBuffer, orig, done', Record(0, stopMsg))
      {
        var recverId := workerInfo.LocalToGlobalId(i, j);
        AppendedStep(channel.sendBuffer, orig, done', Record(0, stopMsg), recverId);
        channel.sendBuffer := channel.sendBuffer[recverId := channel.sendBuffer[recverId] + [Record(0, stopMsg)]];
        assert row[..j + 1] == row[..j] + [recverId];
        done' := done' + [recverId];
        j := j + 1;
      }
      assert row[..j] == row;
    }

    /** Empties the receive buffer and lowers the stop flag; the only place the flag goes down. */
    method ClearRecvBuffer()
      requires Valid()
      modifies this`fastRecvBuffer, this`stop
      ensures Valid() && fastRecvBuffer == [] && !stop
    {
      fastRecvBuffer := [];
      stop := false;
    }

    method Prepare()
      requires Valid()
      modifies this`fastRecvBuffer, this`stop
      ensures Valid() && fastRecvBuffer == [] && !stop
    {
      ClearRecvBuffer();
    }

    /** Decodes every record of `bin` into the receive buffer, creating missing objects. */
    method ProcessBin(bin: BinStream<M>)
      requires Valid()
      modifies this`fastRecvBuffer, this`stop, dst
      ensures Valid()
      ensures State() == Process(old(State()), bin, stopMsg)
      ensures old(stop) ==> stop
    {
      var rest := bin;
      while |rest| != 0
        invariant Process(State(), rest, stopMsg) == Process(old(State()), bin, stopMsg)
        invariant old(stop) ==> stop
        decreases |rest|
      {
        var key, msg := rest[0].key, rest[0].msg;
        ghost var before := State();
        rest := rest[1..];
        if msg == stopMsg {
          stop := true;
        } else {
          var found := Find(dst.objects, key);
          var idx: nat;
          if found.None? {
            idx := dst.AddObject(key);
          } else {
            idx := found.value;
          }
          fastRecvBuffer := fastRecvBuffer + [(idx, msg)];
        }
        assert State() == Step(before, Record(key, msg), stopMsg);
      }
      ProcessNoDup(old(State()), bin, stopMsg);
    }

    method In(bin: BinStream<M>)
      requires Valid()
      modifies this`fastRecvBuffer, this`stop, dst
      ensures Valid()
      ensures State() == Process(old(State()), bin, stopMsg)
      ensures old(stop) ==> stop
    {
      ProcessBin(bin);
    }

    /** The decoded pairs of the current round; reading them does not drain them. */
    method GetObjMsgPairs() returns (pairs: seq<(nat, M)>)
      ensures pairs == fastRecvBuffer
    {
      pairs := fastRecvBuffer;
    }

    method Stop() returns (b: bool)
      ensures b == stop
    {
      b := stop;
    }
  }

  /** The stop protocol end to end: after a worker has broadcast, the bin flushed to a worker of the topology
      ends with the sentinel, so decoding it raises that worker's stop flag; to any worker, decoding what was
      flushed leaves the sentinel out of the receive buffer. */
  lemma BroadcastThenDecodeStops<M>(w: WorkerInfo, buffered: BinStream<M>, d: nat, s: RecvState<M>, stopMsg: M)
    requires forall i :: 0 <= i < |s.pairs| ==> s.pairs[i].1 != stopMsg
    ensures var r := Process(s, buffered + (if d in w.AllIds() then [Record(0, stopMsg)] else []), stopMsg);
      && (d in w.AllIds() ==> r.stop)
      && forall i :: 0 <= i < |r.pairs| ==> r.pairs[i].1 != stopMsg
  {
    var bin := buffered + (if d in w.AllIds() then [Record(0, stopMsg)] else []);
    if d in w.AllIds() {
      ProcessStop(s, bin, stopMsg);
      assert bin[|bin| - 1].msg == stopMsg;
    }
    ProcessNoSentinel(s, bin, stopMsg);
  }
}
