/**
 The network thread's batches (full_custom/udp_thread.c:48-88) and the worker's reading of them
 (full_custom/processing_thread.c:86-91, 124-130): datagrams end to end in a buffer, and back.
 */
module UdpBatch {
  import opened DataFormats
  import opened PoolProtocol
  import Pieces
  import PoolFifo

  const N_READS_DEFAULT: nat := 160

  /** What recvfrom delivers; an empty datagram is a receive of length zero. */
  datatype Receipt = Datagram(bytes: seq<byte>) | Failure

  /** The k-th receipt of a batch goes into the buffer; the very first one of all is not checked for its length. */
  predicate Accepted(order: nat, k: nat, r: Receipt) {
    r.Datagram? && |r.bytes| > 0 && ((order == 1 && k == 0) || |r.bytes| == RX_MSG_LEN)
  }

  predicate IsZeroLength(r: Receipt) {
    r.Datagram? && |r.bytes| == 0
  }

  ghost function Bytes(rs: seq<Receipt>): (r: seq<seq<byte>>)
    requires forall i :: 0 <= i < |rs| ==> rs[i].Datagram?
    ensures |r| == |rs| && forall i :: 0 <= i < |rs| ==> r[i] == rs[i].bytes
  {
    seq(|rs|, i requires 0 <= i < |rs| => rs[i].bytes)
  }

  /** No receipt is longer than the receive buffer. */
  ghost predicate Receivable(rs: seq<Receipt>) {
    forall i :: 0 <= i < |rs| && rs[i].Datagram? ==> |rs[i].bytes| <= RX_MSG_LEN
  }

  ghost predicate AllAccepted(order: nat, rs: seq<Receipt>) {
    forall i :: 0 <= i < |rs| ==> Accepted(order, i, rs[i])
  }

  /** How many receipts go into the batch: those accepted in a row, up to 160. */
  function FillCount(order: nat, rs: seq<Receipt>): (n: nat)
    ensures n <= |rs| && n <= N_READS_DEFAULT && AllAccepted(order, rs[..n])
    ensures n < |rs| && n < N_READS_DEFAULT ==> !Accepted(order, n, rs[n])
  {
    FillFrom(order, rs, 0)
  }

  function FillFrom(order: nat, rs: seq<Receipt>, k: nat): (n: nat)
    requires k <= |rs| && k <= N_READS_DEFAULT && AllAccepted(order, rs[..k])
    ensures k <= n <= |rs| && n <= N_READS_DEFAULT && AllAccepted(order, rs[..n])
    ensures n < |rs| && n < N_READS_DEFAULT ==> !Accepted(order, n, rs[n])
    decreases N_READS_DEFAULT - k
  {
    if k < |rs| && k < N_READS_DEFAULT && Accepted(order, k, rs[k]) then FillFrom(order, rs, k + 1) else k
  }

  /** Each datagram of a batch but the very first of all is a whole message, and only something else ends it early. */
  lemma BatchIsWhole(order: nat, rs: seq<Receipt>)
    ensures var n := FillCount(order, rs);
            && (forall i :: 0 <= i < n ==> rs[i].Datagram? && (order > 1 || i > 0 ==> |rs[i].bytes| == RX_MSG_LEN))
            && (order > 0 && n < |rs| && n < N_READS_DEFAULT ==>
                  rs[n] == Failure || |rs[n].bytes| == 0 || |rs[n].bytes| != RX_MSG_LEN)
            && (order == 1 && 0 < |rs| ==> (n == 0 <==> rs[0] == Failure || |rs[0].bytes| == 0))
  {
    var n := FillCount(order, rs);
    assert forall i :: 0 <= i < n ==> rs[..n][i] == rs[i];
  }

  /** No other count of receipts fits that description. */
  lemma FillCountUnique(order: nat, rs: seq<Receipt>, n: nat)
    requires n <= |rs| && n <= N_READS_DEFAULT && AllAccepted(order, rs[..n])
    requires n < |rs| && n < N_READS_DEFAULT ==> !Accepted(order, n, rs[n])
    ensures n == FillCount(order, rs)
  {
    var m := FillCount(order, rs);
    assert forall i :: 0 <= i < n ==> rs[..n][i] == rs[i];
    assert forall i :: 0 <= i < m ==> rs[..m][i] == rs[i];
  }

  /** The bytes of the batch. */
  ghost function BatchBytes(order: nat, rs: seq<Receipt>): seq<byte> {
    Pieces.Join(Bytes(rs[..FillCount(order, rs)]))
  }

  /** The bytes are those of the first n receipts, all of them accepted. */
  ghost predicate Filled(order: nat, rs: seq<Receipt>, n: nat, bytes: seq<byte>) {
    n <= |rs| && AllAccepted(order, rs[..n]) && bytes == Pieces.Join(Bytes(rs[..n]))
  }

  lemma FilledNext(order: nat, rs: seq<Receipt>, n: nat, bytes: seq<byte>)
    requires n < |rs| && Filled(order, rs, n, bytes) && Accepted(order, n, rs[n])
    ensures Filled(order, rs, n + 1, bytes + rs[n].bytes)
  {
    assert rs[..n + 1] == rs[..n] + [rs[n]];
    assert Bytes(rs[..n + 1])[..n] == Bytes(rs[..n]);
  }

  /** The loop has stopped: at the limit, for want of receipts, or at a receipt it refuses. */
  lemma FilledIsBatch(order: nat, rs: seq<Receipt>, n: nat, bytes: seq<byte>)
    requires Filled(order, rs, n, bytes) && n <= N_READS_DEFAULT
    requires n < |rs| && n < N_READS_DEFAULT ==> !Accepted(order, n, rs[n])
    ensures n == FillCount(order, rs) && bytes == BatchBytes(order, rs)
  {
    FillCountUnique(order, rs, n);
  }

  method AppendDatagram(buff: array<byte>, dataSize: nat, d: seq<byte>)
    requires dataSize + |d| <= buff.Length
    modifies buff
    ensures buff[..dataSize + |d|] == old(buff[..dataSize]) + d
  {
    forall i | 0 <= i < |d| {
      buff[dataSize + i] := d[i];
    }
  }

  /**
   One batch.  `posts` counts the calls of returnBuffer for it: none while the thread still waits for a
   datagram, two after a receive of length zero, otherwise one.
   */
  method FillBatch(buff: array<byte>, order: nat, rs: seq<Receipt>)
    returns (n: nat, dataSize: nat, keepGoing: bool, posts: nat)
    requires Receivable(rs) && buff.Length >= N_READS_DEFAULT * RX_MSG_LEN
    modifies buff
    ensures n == FillCount(order, rs)
    ensures dataSize <= buff.Length && buff[..dataSize] == BatchBytes(order, rs)
    ensures keepGoing <==> n == N_READS_DEFAULT || n == |rs|
    ensures posts == if n < N_READS_DEFAULT && n == |rs| then 0
                     else if n < N_READS_DEFAULT && IsZeroLength(rs[n]) then 2 else 1
  {
    n, dataSize, keepGoing, posts := 0, 0, true, 0;
    while n < N_READS_DEFAULT && n < |rs| && keepGoing
      invariant n <= |rs| && n <= N_READS_DEFAULT && dataSize <= n * RX_MSG_LEN
      invariant Filled(order, rs, n, buff[..dataSize])
      invariant !keepGoing ==> n < |rs| && n < N_READS_DEFAULT && !Accepted(order, n, rs[n])
      invariant posts == if !keepGoing && IsZeroLength(rs[n]) then 1 else 0
      decreases |rs| - n, keepGoing
    {
      var r := rs[n];
      if r.Datagram? && |r.bytes| > 0 {
        if !(order == 1 && n == 0) && |r.bytes| != RX_MSG_LEN {
          keepGoing := false;
        } else {
          FilledNext(order, rs, n, buff[..dataSize]);
          AppendDatagram(buff, dataSize, r.bytes);
          dataSize := dataSize + |r.bytes|;
          n := n + 1;
        }
      } else {
        if r.Datagram? {
          posts := posts + 1;
        }
        keepGoing := false;
      }
    }
    FilledIsBatch(order, rs, n, buff[..dataSize]);
    if n == N_READS_DEFAULT || n < |rs| {
      posts := posts + 1;
    }
  }

  /** nOfPackets messages, header and data. */
  function ParseBatch(data: seq<byte>): (r: seq<Packet>)
    ensures |r| == |data| / RX_MSG_LEN
  {
    seq(|data| / RX_MSG_LEN, k requires 0 <= k < |data| / RX_MSG_LEN => Decode(Pieces.Piece(data, RX_MSG_LEN, k)))
  }

  ghost function DecodeAll(msgs: seq<seq<byte>>): (r: seq<Packet>)
    requires Pieces.Uniform(msgs, RX_MSG_LEN)
    ensures |r| == |msgs|
  {
    seq(|msgs|, i requires 0 <= i < |msgs| => Decode(msgs[i]))
  }

  /** The worker finds in the buffer the messages that were put into it. */
  lemma ParseInverts(msgs: seq<seq<byte>>)
    requires Pieces.Uniform(msgs, RX_MSG_LEN)
    ensures ParseBatch(Pieces.Join(msgs)) == DecodeAll(msgs)
  {
    var data := Pieces.Join(msgs);
    Pieces.JoinLen(msgs, RX_MSG_LEN);
    forall k | 0 <= k < |msgs| ensures ParseBatch(data)[k] == DecodeAll(msgs)[k] {
      forall y | 0 <= y < RX_MSG_LEN ensures Pieces.Piece(data, RX_MSG_LEN, k)[y] == msgs[k][y] {
        Pieces.JoinAt(msgs, RX_MSG_LEN, k, y);
        Pieces.PieceAt(data, RX_MSG_LEN, k, y);
      }
      assert Pieces.Piece(data, RX_MSG_LEN, k) == msgs[k];
    }
  }

  /** A sender's packets as datagrams; version bit 7 marks voltage data. */
  ghost function Sent(pkts: seq<Packet>): (msgs: seq<seq<byte>>)
    ensures |msgs| == |pkts| && Pieces.Uniform(msgs, RX_MSG_LEN)
    ensures forall i :: 0 <= i < |pkts| ==> msgs[i] == Encode(pkts[i], VersionOf(pkts[i]))
  {
    seq(|pkts|, i requires 0 <= i < |pkts| => Encode(pkts[i], VersionOf(pkts[i])))
  }

  function VersionOf(p: RawPacket): nat {
    if p.volt then 0x80 else 0
  }

  lemma SentDecodes(pkts: seq<Packet>)
    ensures DecodeAll(Sent(pkts)) == pkts
  {
    forall i | 0 <= i < |pkts| ensures DecodeAll(Sent(pkts))[i] == pkts[i] {
      DatagramRoundTrip(pkts[i], VersionOf(pkts[i]));
    }
  }

  // The whole way from the senders to the worker.

  /** The i-th full batch of a stream. */
  ghost function BatchAt<T>(s: seq<T>, i: nat): (b: seq<T>)
    requires (i + 1) * N_READS_DEFAULT <= |s|
    ensures |b| == N_READS_DEFAULT
  {
    s[i * N_READS_DEFAULT..(i + 1) * N_READS_DEFAULT]
  }

  /** The batches the network thread has posted are those of the packets sent, in order. */
  ghost predicate Produces(produced: seq<seq<byte>>, pkts: seq<Packet>) {
    && |produced| * N_READS_DEFAULT <= |pkts|
    && forall i: nat :: i < |produced| ==> produced[i] == Pieces.Join(Sent(BatchAt(pkts, i)))
  }

  ghost function ParseAll(batches: seq<seq<byte>>): seq<Packet> {
    if batches == [] then [] else ParseAll(batches[..|batches| - 1]) + ParseBatch(batches[|batches| - 1])
  }

  lemma {:induction false} ParseAllIs(batches: seq<seq<byte>>, pkts: seq<Packet>)
    requires Produces(batches, pkts)
    ensures ParseAll(batches) == pkts[..|batches| * N_READS_DEFAULT]
  {
    if batches != [] {
      var n := |batches| - 1;
      ParseAllIs(batches[..n], pkts);
      var b := BatchAt(pkts, n);
      assert batches[n] == Pieces.Join(Sent(b));
      ParseInverts(Sent(b));
      SentDecodes(b);
      assert pkts[..(n + 1) * N_READS_DEFAULT] == pkts[..n * N_READS_DEFAULT] + b;
    }
  }

  // What the network thread posts, from what it receives.

  /**
   The batches posted for the receipts rs, numbered from `order`: full ones, and after a refused receipt no more.
   */
  ghost predicate Posts(produced: seq<seq<byte>>, rs: seq<Receipt>, order: nat)
    decreases |produced|
  {
    produced == [] ||
    (var n := FillCount(order, rs);
     && (n == N_READS_DEFAULT || n < |rs|) && produced[0] == BatchBytes(order, rs)
     && if n == N_READS_DEFAULT then Posts(produced[1..], rs[n..], order + 1) else |produced| == 1)
  }

  /** The receipts when the senders' packets arrive whole and in order. */
  ghost function Datagrams(pkts: seq<Packet>): (rs: seq<Receipt>)
    ensures |rs| == |pkts| && forall i :: 0 <= i < |rs| ==> rs[i] == Datagram(Sent(pkts)[i])
  {
    var msgs := Sent(pkts);
    seq(|pkts|, i requires 0 <= i < |pkts| => Datagram(msgs[i]))
  }

  lemma FullBatch(pkts: seq<Packet>, order: nat)
    requires |pkts| >= N_READS_DEFAULT
    ensures FillCount(order, Datagrams(pkts)) == N_READS_DEFAULT
    ensures BatchBytes(order, Datagrams(pkts)) == Pieces.Join(Sent(BatchAt(pkts, 0)))
  {
    var rs := Datagrams(pkts);
    assert forall i :: 0 <= i < |rs| ==> Accepted(order, i, rs[i]);
    FillCountUnique(order, rs, N_READS_DEFAULT);
    assert Bytes(rs[..N_READS_DEFAULT]) == Sent(BatchAt(pkts, 0));
  }

  lemma ShortBatch(pkts: seq<Packet>, order: nat)
    requires |pkts| < N_READS_DEFAULT
    ensures FillCount(order, Datagrams(pkts)) == |pkts|
  {
    var rs := Datagrams(pkts);
    assert forall i :: 0 <= i < |rs| ==> Accepted(order, i, rs[i]);
    FillCountUnique(order, rs, |rs|);
  }

  /** Whole packets are posted in batches of 160, in order. */
  lemma {:induction false} PostsIsProduces(produced: seq<seq<byte>>, pkts: seq<Packet>, rs: seq<Receipt>, order: nat)
    requires rs == Datagrams(pkts) && Posts(produced, rs, order)
    ensures Produces(produced, pkts)
    decreases |produced|
  {
    if produced != [] {
      if |pkts| < N_READS_DEFAULT {
        ShortBatch(pkts, order);
      } else {
        FullBatch(pkts, order);
        var rest := pkts[N_READS_DEFAULT..];
        assert rs[N_READS_DEFAULT..] == Datagrams(rest);
        PostsIsProduces(produced[1..], rest, rs[N_READS_DEFAULT..], order + 1);
        ProducesOneMore(produced, pkts);
      }
    }
  }

  lemma ProducesOneMore(produced: seq<seq<byte>>, pkts: seq<Packet>)
    requires produced != [] && |pkts| >= N_READS_DEFAULT && produced[0] == Pieces.Join(Sent(BatchAt(pkts, 0)))
    requires Produces(produced[1..], pkts[N_READS_DEFAULT..])
    ensures Produces(produced, pkts)
  {
    var rest := pkts[N_READS_DEFAULT..];
    forall i: nat | i < |produced| ensures produced[i] == Pieces.Join(Sent(BatchAt(pkts, i))) {
      if i > 0 {
        assert produced[i] == produced[1..][i - 1];
        NextBatch(pkts, rest, i);
      }
    }
  }

  lemma NextBatch<T>(s: seq<T>, rest: seq<T>, i: nat)
    requires 0 < i && (i + 1) * N_READS_DEFAULT <= |s| && rest == s[N_READS_DEFAULT..]
    ensures BatchAt(s, i) == BatchAt(rest, i - 1)
  {
    Pieces.SliceSlice(s, N_READS_DEFAULT, |rest|, (i - 1) * N_READS_DEFAULT, i * N_READS_DEFAULT);
  }

  /** The batches as the worker reads them. */
  function Parsed(batches: seq<seq<byte>>): (r: seq<seq<Packet>>)
    ensures |r| == |batches| && forall b :: 0 <= b < |r| ==> r[b] == ParseBatch(batches[b])
  {
    seq(|batches|, b requires 0 <= b < |batches| => ParseBatch(batches[b]))
  }

  lemma ParsedAt(batches: seq<seq<byte>>, pkts: seq<Packet>, b: nat)
    requires Produces(batches, pkts) && b < |batches|
    ensures Parsed(batches)[b] == BatchAt(pkts, b)
  {
    assert batches[b] == Pieces.Join(Sent(BatchAt(pkts, b)));
    ParseInverts(Sent(BatchAt(pkts, b)));
    SentDecodes(BatchAt(pkts, b));
  }

  /**
   Under any schedule of network thread and worker, the worker has processed the packets sent, in order, as far as
   it has come.
   */
  lemma StreamReachesWorker(s: State<seq<byte>>, es: seq<Event<seq<byte>>>, l: PoolFifo.Link<seq<byte>>,
                            pkts: seq<Packet>)
    requires Start(s) && PoolFifo.LinkRun(PoolFifo.Link(s, [], []), es, l) && Posts(l.produced, Datagrams(pkts), 1)
    ensures |l.delivered| * N_READS_DEFAULT <= |pkts|
    ensures ParseAll(l.delivered) == pkts[..|l.delivered| * N_READS_DEFAULT]
    ensures forall b: nat :: b < |l.delivered| ==> Parsed(l.delivered)[b] == BatchAt(pkts, b)
  {
    PoolFifo.FifoRefinement(s, es, l);
    PostsIsProduces(l.produced, pkts, Datagrams(pkts), 1);
    ParseAllIs(l.delivered, pkts);
    forall b: nat | b < |l.delivered| ensures Parsed(l.delivered)[b] == BatchAt(pkts, b) {
      ParsedAt(l.delivered, pkts, b);
    }
  }
}
