/** The host's receive side: splitting and reassembling undo each other when every chunk arrives once and
    in order. The host records a received sequence number without comparing it, so a repeated chunk is
    appended again; the last lemmas say exactly what that does. */
module Reassembly {
  import opened Options
  import opened Datagrams
  import opened RadioProtocol

  /** Feeds chunks in order; returns the buffer and the datagrams completed on the way. */
  function FeedAll(rx: Rx, chunks: seq<Chunk<ResponseType>>): (r: (Rx, seq<ResponseDatagram>))
    decreases |chunks|
  {
    if |chunks| == 0 then (rx, [])
    else
      var (rx', done) := Feed(rx, chunks[0]);
      var (rest, ds) := FeedAll(rx', chunks[1..]);
      (rest, (if done.Some? then [done.value] else []) + ds)
  }

  lemma {:induction false} FeedConcat(rx: Rx, a: seq<Chunk<ResponseType>>, b: seq<Chunk<ResponseType>>)
    ensures var (rx1, ds1) := FeedAll(rx, a);
            var (rx2, ds2) := FeedAll(rx1, b);
            FeedAll(rx, a + b) == (rx2, ds1 + ds2)
    decreases |a|
  {
    if |a| == 0 {
      assert a + b == b && [] + FeedAll(rx, b).1 == FeedAll(rx, b).1;
    } else {
      assert (a + b)[1..] == a[1..] + b;
      var (rx', done) := Feed(rx, a[0]);
      FeedConcat(rx', a[1..], b);
      var (rx1, ds1) := FeedAll(rx', a[1..]);
      var first := if done.Some? then [done.value] else [];
      assert first + (ds1 + FeedAll(rx1, b).1) == (first + ds1) + FeedAll(rx1, b).1;
    }
  }

  function SplitAll(ds: seq<ResponseDatagram>): seq<Chunk<ResponseType>> {
    if |ds| == 0 then [] else ResponseChunks(ds[0]) + SplitAll(ds[1..])
  }

  function Started(t: ResponseType, sofar: seq<byte>): Rx {
    if sofar == [] then EMPTY_RX else Rx(Some(t), sofar)
  }

  lemma FeedLast(t: ResponseType, sofar: seq<byte>, rest: seq<byte>)
    requires 0 < |rest| <= DATAGRAM_CHUNK_SIZE && |sofar + rest| == ResponseSize(t)
    ensures Feed(Started(t, sofar), Chunk(t, Pad(rest))) == (EMPTY_RX, ResponseFromBytes(t, sofar + rest))
  {
    assert (sofar + Pad(rest))[..ResponseSize(t)] == sofar + rest;
    ResponseDependsOnSize(t, sofar + Pad(rest), sofar + rest);
  }

  lemma FeedMore(t: ResponseType, sofar: seq<byte>, piece: ChunkData)
    requires |sofar| + |piece| < ResponseSize(t)
    ensures Feed(Started(t, sofar), Chunk(t, piece)) == (Started(t, sofar + piece), None)
  {
  }

  lemma {:induction false} FeedCons(rx: Rx, c: Chunk<ResponseType>, rest: seq<Chunk<ResponseType>>)
    ensures var (rx', done) := Feed(rx, c);
            var (end, ds) := FeedAll(rx', rest);
            FeedAll(rx, [c] + rest) == (end, (if done.Some? then [done.value] else []) + ds)
  {
    assert ([c] + rest)[1..] == rest;
  }

  /** The buffer after some whole chunks of a datagram whose packed bytes are `sofar + rest`. */
  lemma {:induction false} FeedRest(t: ResponseType, sofar: seq<byte>, rest: seq<byte>)
    requires |rest| > 0 && |sofar + rest| == ResponseSize(t)
    ensures FeedAll(Started(t, sofar), Split(t, rest)) == (EMPTY_RX, [ResponseFromBytes(t, sofar + rest).value])
    decreases |rest|
  {
    var whole := [ResponseFromBytes(t, sofar + rest).value];
    if |rest| <= DATAGRAM_CHUNK_SIZE {
      FeedLast(t, sofar, rest);
      FeedCons(Started(t, sofar), Chunk(t, Pad(rest)), []);
      assert [Chunk(t, Pad(rest))] + [] == Split(t, rest) && whole + [] == whole;
    } else {
      var piece, tail := rest[..DATAGRAM_CHUNK_SIZE], rest[DATAGRAM_CHUNK_SIZE..];
      assert sofar + rest == (sofar + piece) + tail;
      FeedRest(t, sofar + piece, tail);
      FeedMore(t, sofar, piece);
      FeedCons(Started(t, sofar), Chunk(t, piece), Split(t, tail));
      assert [] + whole == whole;
    }
  }

  lemma ResponseDependsOnSize(t: ResponseType, a: seq<byte>, b: seq<byte>)
    requires |a| >= ResponseSize(t) && |b| >= ResponseSize(t)
    requires a[..ResponseSize(t)] == b[..ResponseSize(t)]
    ensures ResponseFromBytes(t, a) == ResponseFromBytes(t, b)
  {
    assert a[0] == a[..ResponseSize(t)][0] && b[0] == b[..ResponseSize(t)][0];
  }

  /** One datagram: it is emitted, unchanged and without its padding, and the buffer ends empty. */
  lemma DatagramRoundTrip(d: ResponseDatagram)
    ensures FeedAll(EMPTY_RX, ResponseChunks(d)) == (EMPTY_RX, [d])
  {
    var (t, data) := ResponseBytes(d);
    FeedRest(t, [], data);
    assert [] + data == data;
    assert data[..ResponseSize(t)] == data;
    ResponseDetermined(t, data, d);
  }

  lemma ResponseDetermined(t: ResponseType, data: seq<byte>, d: ResponseDatagram)
    requires ResponseBytes(d) == (t, data)
    ensures ResponseFromBytes(t, data) == Some(d)
  {
    assert data[..ResponseSize(t)] == data;
  }

  /** No proper prefix of a datagram's chunks completes it: it completes on its ceil(size/27)-th chunk. */
  lemma CompletesOnLastChunk(d: ResponseDatagram, k: nat)
    requires k < |ResponseChunks(d)|
    ensures |ResponseChunks(d)| == (ResponseSize(ResponseBytes(d).0) + 26) / 27
    ensures FeedAll(EMPTY_RX, ResponseChunks(d)[..k]).1 == []
  {
    var t := ResponseBytes(d).0;
    SameTypeStream(t, ResponseChunks(d)[..k]);
  }

  lemma {:induction false} SplitRoundTrip(ds: seq<ResponseDatagram>)
    ensures FeedAll(EMPTY_RX, SplitAll(ds)) == (EMPTY_RX, ds)
  {
    if |ds| == 0 {
    } else {
      DatagramRoundTrip(ds[0]);
      SplitRoundTrip(ds[1..]);
      FeedConcat(EMPTY_RX, ResponseChunks(ds[0]), SplitAll(ds[1..]));
      assert [ds[0]] + ds[1..] == ds;
    }
  }

  // ---- Packets instead of chunks ----

  /** The chunks carried by a packet stream; regular packets may sit anywhere in between. */
  function ChunksIn<RR>(ps: seq<Packet<ResponseType, RR>>): seq<Chunk<ResponseType>>
    decreases |ps|
  {
    if |ps| == 0 then []
    else (if ps[0].Datagram? then [ps[0].payload.chunk] else []) + ChunksIn(ps[1..])
  }

  /** The host after receiving a packet stream, and the datagrams it handed out. */
  function ReceiveAll<RR>(h: Host, ps: seq<Packet<ResponseType, RR>>): (Host, seq<ResponseDatagram>)
    decreases |ps|
  {
    if |ps| == 0 then (h, [])
    else
      var (h', result) := Receive(h, ps[0]);
      var (h'', ds) := ReceiveAll(h', ps[1..]);
      (h'', (if result.DatagramResult? then [result.datagram] else []) + ds)
  }

  lemma {:induction false} ReceiveAllFeeds<RR>(h: Host, ps: seq<Packet<ResponseType, RR>>)
    ensures (ReceiveAll(h, ps).0.rx, ReceiveAll(h, ps).1) == FeedAll(h.rx, ChunksIn(ps))
    decreases |ps|
  {
    if |ps| == 0 {
    } else {
      var h' := Receive(h, ps[0]).0;
      ReceiveAllFeeds(h', ps[1..]);
      if ps[0].Datagram? {
        assert ChunksIn(ps)[0] == ps[0].payload.chunk && ChunksIn(ps)[1..] == ChunksIn(ps[1..]);
      } else {
        assert ChunksIn(ps) == ChunksIn(ps[1..]);
        assert [] + ReceiveAll(h', ps[1..]).1 == ReceiveAll(h', ps[1..]).1;
      }
    }
  }

  /** Split and reassemble undo each other: if the chunks of a list of response datagrams arrive once and in order,
      with any regular packets in between, the host emits exactly that list and its buffer ends empty. */
  lemma {:induction false} ReassemblyRoundTrip<RR>(h: Host, ps: seq<Packet<ResponseType, RR>>,
                                                   ds: seq<ResponseDatagram>)
    requires h.rx == EMPTY_RX
    requires ChunksIn(ps) == SplitAll(ds)
    ensures ReceiveAll(h, ps).1 == ds && ReceiveAll(h, ps).0.rx == EMPTY_RX
  {
    ReceiveAllFeeds(h, ps);
    SplitRoundTrip(ds);
  }

  // ---- Repeated chunks ----

  lemma {:induction false} FeedOne(rx: Rx, c: Chunk<ResponseType>)
    ensures var (rx', done) := Feed(rx, c);
            FeedAll(rx, [c]) == (rx', if done.Some? then [done.value] else [])
  {
    assert |[c][1..]| == 0;
    var first := if Feed(rx, c).1.Some? then [Feed(rx, c).1.value] else [];
    assert first + [] == first;
  }

  lemma {:induction false} FeedSnoc(rx: Rx, chunks: seq<Chunk<ResponseType>>, c: Chunk<ResponseType>)
    ensures var (rx1, ds) := FeedAll(rx, chunks);
            var (rx2, done) := Feed(rx1, c);
            FeedAll(rx, chunks + [c]) == (rx2, ds + if done.Some? then [done.value] else [])
  {
    FeedConcat(rx, chunks, [c]);
    FeedOne(FeedAll(rx, chunks).0, c);
  }

  /** The buffer and the number of datagrams handed out after n chunks of type t. */
  ghost predicate Counts(t: ResponseType, rx: Rx, datagrams: nat, n: nat) {
    var k := ChunkCount(ResponseSize(t));
    && datagrams == n / k
    && |rx.buf| == DATAGRAM_CHUNK_SIZE * (n % k)
    && rx.tag == (if n % k == 0 then None else Some(t))
  }

  lemma NextQuotient(n: nat, k: nat)
    requires k == 1 || k == 4
    ensures n % k == k - 1 ==> (n + 1) / k == n / k + 1 && (n + 1) % k == 0
    ensures n % k < k - 1 ==> (n + 1) / k == n / k && (n + 1) % k == n % k + 1
  {
  }

  lemma ChunkCounts(t: ResponseType)
    ensures var k := ChunkCount(ResponseSize(t));
            (k == 1 || k == 4) && DATAGRAM_CHUNK_SIZE * (k - 1) < ResponseSize(t) <= DATAGRAM_CHUNK_SIZE * k
  {
  }

  lemma {:induction false} CountsStep(t: ResponseType, rx: Rx, datagrams: nat, n: nat, c: Chunk<ResponseType>)
    requires c.tag == t && Counts(t, rx, datagrams, n)
    ensures var (rx', done) := Feed(rx, c);
            Counts(t, rx', datagrams + (if done.Some? then 1 else 0), n + 1)
  {
    var k := ChunkCount(ResponseSize(t));
    ChunkCounts(t);
    NextQuotient(n, k);
    var r := n % k;
    assert 0 <= r < k;
    if r < k - 1 {
      assert DATAGRAM_CHUNK_SIZE * r <= DATAGRAM_CHUNK_SIZE * (k - 2);
    }
  }

  /** A stream of n chunks of one type completes a datagram on every k-th chunk, k = ceil(size/27), and leaves
      n mod k chunks in the buffer. */
  lemma {:induction false} SameTypeStream(t: ResponseType, chunks: seq<Chunk<ResponseType>>)
    requires forall c <- chunks :: c.tag == t
    ensures Counts(t, FeedAll(EMPTY_RX, chunks).0, |FeedAll(EMPTY_RX, chunks).1|, |chunks|)
  {
    if |chunks| == 0 {
    } else {
      var last := |chunks| - 1;
      var before, c := chunks[..last], chunks[last];
      SameTypeStream(t, before);
      FeedConcat(EMPTY_RX, before, [c]);
      assert before + [c] == chunks;
      var rx := FeedAll(EMPTY_RX, before).0;
      FeedOne(rx, c);
      CountsStep(t, rx, |FeedAll(EMPTY_RX, before).1|, last, c);
    }
  }

  /** Each chunk of the list repeated on the spot as often as `counts` says. */
  function Repeat(chunks: seq<Chunk<ResponseType>>, counts: seq<nat>): seq<Chunk<ResponseType>>
    requires |counts| == |chunks|
  {
    if |chunks| == 0 then [] else seq(counts[0], _ => chunks[0]) + Repeat(chunks[1..], counts[1..])
  }

  predicate EachArrives(counts: seq<nat>) {
    forall i :: 0 <= i < |counts| ==> counts[i] >= 1
  }

  predicate EachArrivesOnce(counts: seq<nat>) {
    forall i :: 0 <= i < |counts| ==> counts[i] == 1
  }

  lemma {:induction false} RepeatLength(chunks: seq<Chunk<ResponseType>>, counts: seq<nat>, t: ResponseType)
    requires |counts| == |chunks| && EachArrives(counts)
    requires forall c <- chunks :: c.tag == t
    ensures forall c <- Repeat(chunks, counts) :: c.tag == t
    ensures |Repeat(chunks, counts)| >= |chunks|
    ensures |Repeat(chunks, counts)| == |chunks| <==> EachArrivesOnce(counts)
    ensures EachArrivesOnce(counts) ==> Repeat(chunks, counts) == chunks
  {
    if |chunks| == 0 {
    } else {
      RepeatLength(chunks[1..], counts[1..], t);
      assert forall i :: 0 < i < |counts| ==> counts[i] == counts[1..][i - 1];
      if EachArrivesOnce(counts) {
        assert EachArrivesOnce(counts[1..]);
        assert seq(1, _ => chunks[0]) == [chunks[0]];
      }
    }
  }

  predicate AllOfType(ds: seq<ResponseDatagram>, t: ResponseType) {
    forall i :: 0 <= i < |ds| ==> ResponseBytes(ds[i]).0 == t
  }

  lemma {:induction false} SplitAllOfType(ds: seq<ResponseDatagram>, t: ResponseType)
    requires AllOfType(ds, t)
    ensures |SplitAll(ds)| == |ds| * ChunkCount(ResponseSize(t)) && forall c <- SplitAll(ds) :: c.tag == t
  {
    if |ds| == 0 {
    } else {
      assert ResponseBytes(ds[0]).0 == t && forall i :: 0 < i < |ds| ==> ds[i] == ds[1..][i - 1];
      SplitAllOfType(ds[1..], t);
      Distributes(|ds|, ChunkCount(ResponseSize(t)));
    }
  }

  lemma Distributes(n: nat, k: nat)
    requires n > 0
    ensures n * k == k + (n - 1) * k
  {
  }

  lemma WholeQuotient(n: nat, m: nat, k: nat)
    requires k > 0 && n / k == m && n % k == 0
    ensures n == m * k
  {
  }

  /** The missing duplicate check. When the chunks of a list of datagrams of one type arrive in order, each at least
      once, the host hands out exactly that list and ends with an empty buffer if and only if no chunk was delivered
      twice. */
  lemma {:induction false} DeliveredIffNoChunkRepeats(t: ResponseType, ds: seq<ResponseDatagram>, counts: seq<nat>)
    requires AllOfType(ds, t) && |counts| == |SplitAll(ds)| && EachArrives(counts)
    ensures FeedAll(EMPTY_RX, Repeat(SplitAll(ds), counts)) == (EMPTY_RX, ds) <==> EachArrivesOnce(counts)
  {
    var stream, k := Repeat(SplitAll(ds), counts), ChunkCount(ResponseSize(t));
    SplitAllOfType(ds, t);
    RepeatLength(SplitAll(ds), counts, t);
    SameTypeStream(t, stream);
    SplitRoundTrip(ds);
    if FeedAll(EMPTY_RX, stream) == (EMPTY_RX, ds) {
      WholeQuotient(|stream|, |ds|, k);
    }
  }

  // ---- What is handed out, whatever is left in the buffer ----

  /** Chunks that are just enough for a datagram of type t, of which `sofar` is there already. */
  lemma {:induction false} FeedEnough(t: ResponseType, sofar: seq<byte>, chunks: seq<Chunk<ResponseType>>)
    requires |chunks| > 0 && forall c <- chunks :: c.tag == t
    requires var whole := |sofar| + |Joined(chunks)|; whole - DATAGRAM_CHUNK_SIZE < ResponseSize(t) <= whole
    ensures FeedAll(Started(t, sofar), chunks) == (EMPTY_RX, [ResponseFromBytes(t, sofar + Joined(chunks)).value])
    decreases |chunks|
  {
    var c, rest := chunks[0], chunks[1..];
    assert c in chunks && chunks == [c] + rest && Chunk(t, c.data) == c;
    assert sofar + Joined(chunks) == (sofar + c.data) + Joined(rest);
    FeedCons(Started(t, sofar), c, rest);
    var whole := [ResponseFromBytes(t, sofar + Joined(chunks)).value];
    if |rest| == 0 {
      assert sofar + Joined(chunks) == sofar + c.data;
      assert whole + [] == whole;
    } else {
      FeedMore(t, sofar, c.data);
      FeedEnough(t, sofar + c.data, rest);
      assert [] + whole == whole;
    }
  }

  /** The datagrams in a stream of chunks of type t: one from every full group of k chunks, k = ceil(size/27). */
  function Groups(t: ResponseType, chunks: seq<Chunk<ResponseType>>): seq<ResponseDatagram>
    decreases |chunks|
  {
    var k := ChunkCount(ResponseSize(t));
    if |chunks| < k then [] else [GroupOf(t, chunks[..k])] + Groups(t, chunks[k..])
  }

  function GroupOf(t: ResponseType, group: seq<Chunk<ResponseType>>): ResponseDatagram
    requires |group| == ChunkCount(ResponseSize(t))
  {
    ResponseFromBytes(t, Joined(group)).value
  }

  lemma {:induction false} FirstGroup(t: ResponseType, chunks: seq<Chunk<ResponseType>>)
    requires |chunks| == ChunkCount(ResponseSize(t)) && forall c <- chunks :: c.tag == t
    ensures FeedAll(EMPTY_RX, chunks) == (EMPTY_RX, [GroupOf(t, chunks)])
  {
    ChunkCounts(t);
    FeedEnough(t, [], chunks);
    assert [] + Joined(chunks) == Joined(chunks);
  }

  lemma {:induction false} TooFewChunks(t: ResponseType, chunks: seq<Chunk<ResponseType>>)
    requires |chunks| < ChunkCount(ResponseSize(t)) && forall c <- chunks :: c.tag == t
    ensures FeedAll(EMPTY_RX, chunks).1 == []
  {
    SameTypeStream(t, chunks);
    assert |chunks| / ChunkCount(ResponseSize(t)) == 0;
  }

  lemma {:induction false} GroupThenRest(t: ResponseType, group: seq<Chunk<ResponseType>>,
                                         rest: seq<Chunk<ResponseType>>)
    requires |group| == ChunkCount(ResponseSize(t)) && forall c <- group :: c.tag == t
    ensures FeedAll(EMPTY_RX, group + rest).1 == [GroupOf(t, group)] + FeedAll(EMPTY_RX, rest).1
  {
    FirstGroup(t, group);
    FeedConcat(EMPTY_RX, group, rest);
  }

  /** What a stream of chunks of one type hands out. */
  lemma {:induction false} OutputOfOneType(t: ResponseType, chunks: seq<Chunk<ResponseType>>)
    requires forall c <- chunks :: c.tag == t
    ensures FeedAll(EMPTY_RX, chunks).1 == Groups(t, chunks)
    decreases |chunks|
  {
    var k := ChunkCount(ResponseSize(t));
    if |chunks| < k {
      TooFewChunks(t, chunks);
    } else {
      var group, rest := chunks[..k], chunks[k..];
      assert chunks == group + rest;
      GroupThenRest(t, group, rest);
      OutputOfOneType(t, rest);
    }
  }

  /** Duplicates and what is handed out: one datagram whose chunks arrive in order, in whatever numbers, is handed out
      exactly once and unchanged if and only if k to 2k-1 chunks arrive and the first k of them carry its bytes. */
  lemma {:induction false} HandedOutIff(d: ResponseDatagram, counts: seq<nat>)
    requires |counts| == |ResponseChunks(d)|
    ensures var stream, k := Repeat(ResponseChunks(d), counts), |ResponseChunks(d)|;
            FeedAll(EMPTY_RX, stream).1 == [d] <==>
            k <= |stream| < 2 * k && Joined(stream[..k])[..|ResponseBytes(d).1|] == ResponseBytes(d).1
  {
    var (t, data) := ResponseBytes(d);
    var stream, k := Repeat(ResponseChunks(d), counts), |ResponseChunks(d)|;
    RepeatTags(ResponseChunks(d), counts, t);
    OutputOfOneType(t, stream);
    ChunkCounts(t);
    if |stream| >= k {
      var first := GroupOf(t, stream[..k]);
      assert ResponseBytes(first) == (t, Joined(stream[..k])[..ResponseSize(t)]);
      SameBytesSameDatagram(first, d);
      var more := Groups(t, stream[k..]);
      assert Groups(t, stream) == [first] + more;
      if |stream| < 2 * k {
        assert more == [] && [first] + more == [first];
      } else {
        assert |[first] + more| > 1;
      }
    } else {
      assert Groups(t, stream) == [];
    }
  }

  lemma SameBytesSameDatagram(a: ResponseDatagram, b: ResponseDatagram)
    ensures ResponseBytes(a) == ResponseBytes(b) <==> a == b
  {
    if ResponseBytes(a) == ResponseBytes(b) {
      ResponseDetermined(ResponseBytes(a).0, ResponseBytes(a).1, a);
      ResponseDetermined(ResponseBytes(b).0, ResponseBytes(b).1, b);
    }
  }

  lemma {:induction false} RepeatTags(chunks: seq<Chunk<ResponseType>>, counts: seq<nat>, t: ResponseType)
    requires |counts| == |chunks| && forall c <- chunks :: c.tag == t
    ensures forall c <- Repeat(chunks, counts) :: c.tag == t
  {
    if |chunks| == 0 {
    } else {
      RepeatTags(chunks[1..], counts[1..], t);
    }
  }

  // ---- Streams of several types ----

  /** A chunk of another type than the buffered ones is received as if the buffer were empty. */
  lemma {:induction false} TypeChangeClears(rx: Rx, chunks: seq<Chunk<ResponseType>>)
    requires RxInv(rx) && |chunks| > 0 && rx.tag != Some(chunks[0].tag)
    ensures FeedAll(rx, chunks) == FeedAll(EMPTY_RX, chunks)
  {
    assert Feed(rx, chunks[0]) == Feed(EMPTY_RX, chunks[0]);
  }

  /** Type changes cut a stream into runs that are received independently: a run's stray chunks never reach the next. */
  lemma {:induction false} RunsAreIndependent(t: ResponseType, run: seq<Chunk<ResponseType>>,
                                              rest: seq<Chunk<ResponseType>>)
    requires (forall c <- run :: c.tag == t) && (|rest| > 0 ==> rest[0].tag != t)
    ensures FeedAll(EMPTY_RX, run + rest).1 == Groups(t, run) + FeedAll(EMPTY_RX, rest).1
    ensures |rest| > 0 ==> FeedAll(EMPTY_RX, run + rest).0 == FeedAll(EMPTY_RX, rest).0
  {
    var rx := FeedAll(EMPTY_RX, run).0;
    FeedConcat(EMPTY_RX, run, rest);
    OutputOfOneType(t, run);
    SameTypeStream(t, run);
    if |rest| > 0 {
      FeedAllKeepsRxInv(EMPTY_RX, run);
      TypeChangeClears(rx, rest);
    }
  }

  /** The length of the first run of chunks of one type. */
  function RunLength(chunks: seq<Chunk<ResponseType>>): (n: nat)
    requires |chunks| > 0
    ensures 0 < n <= |chunks|
    ensures forall i :: 0 <= i < n ==> chunks[i].tag == chunks[0].tag
    ensures n < |chunks| ==> chunks[n].tag != chunks[0].tag
  {
    if |chunks| > 1 && chunks[1].tag == chunks[0].tag then 1 + RunLength(chunks[1..]) else 1
  }

  function GroupsOfRuns(chunks: seq<Chunk<ResponseType>>): seq<ResponseDatagram>
    decreases |chunks|
  {
    if |chunks| == 0 then []
    else var n := RunLength(chunks); Groups(chunks[0].tag, chunks[..n]) + GroupsOfRuns(chunks[n..])
  }

  /** What any stream of chunks whatsoever hands out: the full groups of its runs. */
  lemma {:induction false} OutputOfAnyStream(chunks: seq<Chunk<ResponseType>>)
    ensures FeedAll(EMPTY_RX, chunks).1 == GroupsOfRuns(chunks)
    decreases |chunks|
  {
    if |chunks| == 0 {
    } else {
      var n := RunLength(chunks);
      assert chunks == chunks[..n] + chunks[n..];
      RunsAreIndependent(chunks[0].tag, chunks[..n], chunks[n..]);
      OutputOfAnyStream(chunks[n..]);
    }
  }

  lemma {:induction false} FeedAllKeepsRxInv(rx: Rx, chunks: seq<Chunk<ResponseType>>)
    requires RxInv(rx)
    ensures RxInv(FeedAll(rx, chunks).0)
    decreases |chunks|
  {
    if |chunks| == 0 {
    } else {
      FeedKeepsRxInv(rx, chunks[0]);
      FeedAllKeepsRxInv(Feed(rx, chunks[0]).0, chunks[1..]);
    }
  }

  // ---- The smallest cases ----

  lemma {:induction false} RepeatTwo(c: Chunk<ResponseType>, rest: seq<Chunk<ResponseType>>, counts: seq<nat>)
    requires |counts| == |rest|
    ensures Repeat([c] + rest, [2] + counts) == [c, c] + Repeat(rest, counts)
  {
    assert ([c] + rest)[1..] == rest && ([2] + counts)[1..] == counts;
    assert seq(2, _ => c) == [c, c];
  }

  lemma {:induction false} RepeatOnce(chunks: seq<Chunk<ResponseType>>)
    ensures Repeat(chunks, seq(|chunks|, _ => 1)) == chunks
  {
    if |chunks| == 0 {
    } else {
      RepeatOnce(chunks[1..]);
      assert seq(|chunks|, _ => 1)[1..] == seq(|chunks[1..]|, _ => 1);
      assert seq(1, _ => chunks[0]) == [chunks[0]];
    }
  }

  /** A robot id whose only chunk is delivered twice is handed out twice. */
  lemma {:induction false} RepeatedIdIsHandedOutTwice(id: byte)
    ensures |ResponseChunks(RobotIdReply(id))| == 1
    ensures FeedAll(EMPTY_RX, Repeat(ResponseChunks(RobotIdReply(id)), [2]))
         == (EMPTY_RX, [RobotIdReply(id), RobotIdReply(id)])
  {
    var d := RobotIdReply(id);
    var c := ResponseChunks(d)[0];
    assert ResponseChunks(d) == [c] + [] && [2] == [2] + [];
    RepeatTwo(c, [], []);
    assert SplitAll([d]) == [c] && [d, d][1..] == [d] && SplitAll([d, d]) == [c] + SplitAll([d]);
    SplitRoundTrip([d, d]);
    assert [c, c] + Repeat([], []) == [c] + [c];
  }

  /** An echo of zeros whose first chunk is delivered twice is still handed out exactly once; the stray chunk stays in
      the buffer. */
  lemma {:induction false} RepeatInZeroEchoIsNotNoticed(d: ResponseDatagram)
    requires d == EchoReply(seq(100, _ => 0))
    ensures |ResponseChunks(d)| == 4
    ensures FeedAll(EMPTY_RX, Repeat(ResponseChunks(d), [2, 1, 1, 1])).1 == [d]
  {
    var chunks := ResponseChunks(d);
    var c, rest := chunks[0], chunks[1..];
    var stream := Repeat(chunks, [2, 1, 1, 1]);
    assert chunks == [c] + rest && [2, 1, 1, 1] == [2] + seq(3, _ => 1);
    RepeatTwo(c, rest, seq(3, _ => 1));
    RepeatOnce(rest);
    assert stream == [c, c] + rest;
    ZeroChunks(EchoResponse, ResponseBytes(d).1);
    assert forall i :: 0 <= i < 5 ==> AllZero(stream[i].data);
    JoinedZero(stream[..4]);
    assert Joined(stream[..4])[..100] == ResponseBytes(d).1;
    HandedOutIff(d, [2, 1, 1, 1]);
  }

  predicate AllZero(data: seq<byte>) {
    forall i :: 0 <= i < |data| ==> data[i] == 0
  }

  lemma {:induction false} ZeroChunks(t: ResponseType, data: seq<byte>)
    requires AllZero(data)
    ensures forall i :: 0 <= i < |Split(t, data)| ==> AllZero(Split(t, data)[i].data)
    decreases |data|
  {
    if |data| <= DATAGRAM_CHUNK_SIZE {
    } else {
      ZeroChunks(t, data[DATAGRAM_CHUNK_SIZE..]);
    }
  }

  lemma {:induction false} JoinedZero(chunks: seq<Chunk<ResponseType>>)
    requires forall i :: 0 <= i < |chunks| ==> AllZero(chunks[i].data)
    ensures AllZero(Joined(chunks))
  {
    if |chunks| == 0 {
    } else {
      JoinedZero(chunks[1..]);
    }
  }

  /** Across types a repetition can go unnoticed altogether: the stray last chunk of an echo is cleared by the chunk
      of a robot id, and the host ends with exactly the two datagrams and an empty buffer. */
  lemma {:induction false} StrayChunkIsCleared(data: EchoData, id: byte)
    ensures var ds := [EchoReply(data), RobotIdReply(id)];
            && SplitAll(ds) == ResponseChunks(ds[0]) + ResponseChunks(ds[1])
            && FeedAll(EMPTY_RX, ResponseChunks(ds[0]) + [ResponseChunks(ds[0])[3]] + ResponseChunks(ds[1]))
               == (EMPTY_RX, ds)
  {
    var echo, robotId := EchoReply(data), RobotIdReply(id);
    var chunks, last := ResponseChunks(echo), ResponseChunks(echo)[3];
    assert [echo, robotId][1..] == [robotId] && [robotId][1..] == [];
    assert SplitAll([robotId]) == ResponseChunks(robotId) + [];
    DatagramRoundTrip(echo);
    DatagramRoundTrip(robotId);
    FeedOne(EMPTY_RX, last);
    FeedConcat(EMPTY_RX, chunks, [last]);
    var rx := FeedAll(EMPTY_RX, chunks + [last]).0;
    FeedConcat(EMPTY_RX, chunks + [last], ResponseChunks(robotId));
    FeedAllKeepsRxInv(EMPTY_RX, chunks + [last]);
    TypeChangeClears(rx, ResponseChunks(robotId));
    assert [echo] + [] + [robotId] == [echo, robotId];
  }
}
