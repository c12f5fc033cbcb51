/** The write-ahead log: framing, flushing, recovery of a cut file, and replay by kind. */
module WriteAheadLog {
  import opened Base
  import opened Ledger
  import S = StateStore

  const MAGIC: nat := 0x50435741
  const VERSION: nat := 1
  const U32: nat := 0x1_0000_0000

  datatype Entry =
    | SaveBlock(height: nat, block: S.Block)
    | SaveTransaction(hash: Hash, transaction: S.Tx)
    | SaveAccount(address: Address, account: Account)
    | DeleteAccount(address: Address)
    | SaveStateRoot(height: nat, root: Hash)
    | Batch(entries: seq<Entry>)
    | Checkpoint(lsn: nat, timestamp: nat)

  datatype Record = Record(magic: nat, version: nat, lsn: nat, timestamp: nat, entry: Entry, checksum: nat)

  /** The serializer, the checksum of a record's header and the transaction hash are not interpreted. */
  datatype Codec = Codec(encode: Record -> seq<Byte>, decode: seq<Byte> -> Option<Record>,
                         checksum: (nat, nat) -> nat, txHash: S.Tx -> Hash, genesis: S.Block)

  ghost predicate RoundTrips(c: Codec) {
    forall r :: c.decode(c.encode(r)) == Some(r)
  }

  function Stamped(c: Codec, lsn: nat, timestamp: nat, e: Entry): Record {
    Record(MAGIC, VERSION, lsn, timestamp, e, c.checksum(lsn, timestamp))
  }

  predicate Genuine(c: Codec, r: Record) {
    r.magic == MAGIC && r.version == VERSION && r.checksum == c.checksum(r.lsn, r.timestamp)
  }

  // ----- storage tables

  datatype Store = Store(blocks: seq<S.Block>, transactions: map<Hash, S.Tx>, accounts: Accounts,
                         stateRoots: map<nat, Hash>)

  /** A block goes to the slot of its height; missing slots are filled with genesis blocks. */
  function PutBlock(genesis: S.Block, blocks: seq<S.Block>, b: S.Block): seq<S.Block> {
    var sized := if b.height >= |blocks| then blocks + seq(b.height + 1 - |blocks|, _ => genesis) else blocks;
    sized[b.height := b]
  }

  function PutAccount(accounts: Accounts, change: (Address, Option<Account>)): Accounts {
    match change.1
    case Some(a) => accounts[change.0 := a]
    case None => accounts - {change.0}
  }

  function PutBlocks(genesis: S.Block, blocks: seq<S.Block>, news: seq<S.Block>): seq<S.Block> {
    if news == [] then blocks else PutBlock(genesis, PutBlocks(genesis, blocks, news[..|news| - 1]), news[|news| - 1])
  }

  function PutTransactions(txHash: S.Tx -> Hash, table: map<Hash, S.Tx>, news: seq<S.Tx>): map<Hash, S.Tx> {
    if news == [] then table
    else PutTransactions(txHash, table, news[..|news| - 1])[txHash(news[|news| - 1]) := news[|news| - 1]]
  }

  function PutAccounts(accounts: Accounts, news: seq<(Address, Option<Account>)>): Accounts {
    if news == [] then accounts else PutAccount(PutAccounts(accounts, news[..|news| - 1]), news[|news| - 1])
  }

  function PutRoots(roots: map<nat, Hash>, news: seq<(nat, Hash)>): map<nat, Hash> {
    if news == [] then roots else PutRoots(roots, news[..|news| - 1])[news[|news| - 1].0 := news[|news| - 1].1]
  }

  // ----- what entries mean, one by one

  /** The storage operation an entry stands for; a batch stands for its entries in order. */
  function Meant(c: Codec, s: Store, e: Entry): Store
    decreases e
  {
    match e
    case SaveBlock(_, b) => s.(blocks := PutBlock(c.genesis, s.blocks, b))
    case SaveTransaction(_, tx) => s.(transactions := s.transactions[c.txHash(tx) := tx])
    case SaveAccount(a, account) => s.(accounts := s.accounts[a := account])
    case DeleteAccount(a) => s.(accounts := s.accounts - {a})
    case SaveStateRoot(h, root) => s.(stateRoots := s.stateRoots[h := root])
    case Batch(entries) => MeantAll(c, s, entries)
    case Checkpoint(_, _) => s
  }

  function MeantAll(c: Codec, s: Store, es: seq<Entry>): Store
    decreases es
  {
    if es == [] then s else Meant(c, MeantAll(c, s, es[..|es| - 1]), es[|es| - 1])
  }

  /** Entries one by one, with batches passed over. */
  function WithoutBatches(c: Codec, s: Store, es: seq<Entry>): Store {
    if es == [] then s
    else
      var front, last := WithoutBatches(c, s, es[..|es| - 1]), es[|es| - 1];
      if last.Batch? then front else Meant(c, front, last)
  }

  // ----- which batches matter

  /** The last entry, inside batches too, that writes to a table. */
  function LastWrite(e: Entry): Option<Entry>
    decreases e
  {
    match e
    case Batch(entries) => LastWriteIn(entries)
    case Checkpoint(_, _) => None
    case _ => Some(e)
  }

  function LastWriteIn(es: seq<Entry>): Option<Entry>
    decreases es
  {
    if es == [] then None
    else
      match LastWrite(es[|es| - 1])
      case Some(w) => Some(w)
      case None => LastWriteIn(es[..|es| - 1])
  }

  /** A batch, however nested, with some entry that writes to a table. */
  predicate WritingBatch(e: Entry) {
    e.Batch? && LastWrite(e).Some?
  }

  /** Applying an entry ends in its last write, on some tables; without one it does nothing. */
  lemma {:induction false} EndsInLastWrite(c: Codec, s: Store, e: Entry) returns (t: Store)
    ensures Meant(c, s, e) == match LastWrite(e) case Some(w) => Meant(c, t, w) case None => s
    decreases e
  {
    t := s;
    if e.Batch? {
      t := AllEndInLastWrite(c, s, e.entries);
    }
  }

  lemma {:induction false} AllEndInLastWrite(c: Codec, s: Store, es: seq<Entry>) returns (t: Store)
    ensures MeantAll(c, s, es) == match LastWriteIn(es) case Some(w) => Meant(c, t, w) case None => s
    decreases es
  {
    t := s;
    if es != [] {
      var front, last := es[..|es| - 1], es[|es| - 1];
      t := EndsInLastWrite(c, MeantAll(c, s, front), last);
      if LastWrite(last) == None {
        t := AllEndInLastWrite(c, s, front);
      }
    }
  }

  lemma {:induction false} LastWriteIsWrite(e: Entry)
    ensures LastWrite(e).Some? ==> !LastWrite(e).value.Batch? && !LastWrite(e).value.Checkpoint?
    decreases e
  {
    if e.Batch? {
      LastWriteInIsWrite(e.entries);
    }
  }

  lemma {:induction false} LastWriteInIsWrite(es: seq<Entry>)
    ensures LastWriteIn(es).Some? ==> !LastWriteIn(es).value.Batch? && !LastWriteIn(es).value.Checkpoint?
    decreases es
  {
    if es != [] {
      LastWriteIsWrite(es[|es| - 1]);
      LastWriteInIsWrite(es[..|es| - 1]);
    }
  }

  /** Tables that no application of the write can leave behind. */
  function Unlike(w: Entry): Store {
    Store([], map[], if w.DeleteAccount? then map[w.address := NewAccount(0, 0)] else map[], map[])
  }

  lemma WriteShows(c: Codec, t: Store, w: Entry)
    requires !w.Batch? && !w.Checkpoint?
    ensures Meant(c, t, w) != Unlike(w)
  {
    match w {
      case SaveBlock(_, b) => assert |Meant(c, t, w).blocks| > 0;
      case SaveTransaction(_, tx) => assert c.txHash(tx) in Meant(c, t, w).transactions;
      case SaveAccount(a, _) => assert a in Meant(c, t, w).accounts;
      case DeleteAccount(a) => assert a !in Meant(c, t, w).accounts;
      case SaveStateRoot(h, _) => assert h in Meant(c, t, w).stateRoots;
    }
  }

  /** A writing entry changes some tables. */
  lemma WritingChanges(c: Codec, e: Entry) returns (s: Store)
    requires LastWrite(e).Some?
    ensures Meant(c, s, e) != s
  {
    s := Unlike(LastWrite(e).value);
    var t := EndsInLastWrite(c, s, e);
    LastWriteIsWrite(e);
    WriteShows(c, t, LastWrite(e).value);
  }

  lemma {:induction false} NothingWrittenNothingLost(c: Codec, s: Store, es: seq<Entry>)
    requires forall i :: 0 <= i < |es| ==> !WritingBatch(es[i])
    ensures WithoutBatches(c, s, es) == MeantAll(c, s, es)
  {
    if es != [] {
      var n := |es| - 1;
      NothingWrittenNothingLost(c, s, es[..n]);
      var t := EndsInLastWrite(c, MeantAll(c, s, es[..n]), es[n]);
    }
  }

  // ----- replay by kind

  datatype WriteBatch = WriteBatch(blocks: seq<S.Block>, transactions: seq<S.Tx>,
                                   accounts: seq<(Address, Option<Account>)>, stateRoots: seq<(nat, Hash)>)

  const EMPTY_BATCH := WriteBatch([], [], [], [])

  /** Storage applies a batch table by table. */
  function ApplyBatch(c: Codec, s: Store, b: WriteBatch): Store {
    Store(PutBlocks(c.genesis, s.blocks, b.blocks), PutTransactions(c.txHash, s.transactions, b.transactions),
          PutAccounts(s.accounts, b.accounts), PutRoots(s.stateRoots, b.stateRoots))
  }

  function ApplyBatches(c: Codec, s: Store, bs: seq<WriteBatch>): Store {
    if bs == [] then s else ApplyBatch(c, ApplyBatches(c, s, bs[..|bs| - 1]), bs[|bs| - 1])
  }

  datatype Replay = Replay(batches: seq<WriteBatch>, current: WriteBatch, batchOpen: bool)

  const NOTHING_YET := Replay([], EMPTY_BATCH, false)

  function Collect(p: Replay, e: Entry): Replay {
    match e
    case SaveBlock(_, b) => p.(current := p.current.(blocks := p.current.blocks + [b]))
    case SaveTransaction(_, tx) => p.(current := p.current.(transactions := p.current.transactions + [tx]))
    case SaveAccount(a, account) => p.(current := p.current.(accounts := p.current.accounts + [(a, Some(account))]))
    case DeleteAccount(a) => p.(current := p.current.(accounts := p.current.accounts + [(a, None)]))
    case SaveStateRoot(h, root) => p.(current := p.current.(stateRoots := p.current.stateRoots + [(h, root)]))
    case Batch(_) => p.(batchOpen := true)
    case Checkpoint(_, _) => if p.batchOpen then Replay(p.batches + [p.current], EMPTY_BATCH, false) else p
  }

  /** Records with a wrong magic, version or checksum are skipped. */
  function CollectRecord(c: Codec, p: Replay, r: Record): Replay {
    if Genuine(c, r) then Collect(p, r.entry) else p
  }

  function CollectAll(c: Codec, rs: seq<Record>): Replay {
    if rs == [] then NOTHING_YET else CollectRecord(c, CollectAll(c, rs[..|rs| - 1]), rs[|rs| - 1])
  }

  lemma CollectOneMore(c: Codec, rs: seq<Record>, r: Record)
    ensures CollectAll(c, rs + [r]) == CollectRecord(c, CollectAll(c, rs), r)
  {
    AppendEach(rs, r);
  }

  function Batches(p: Replay): seq<WriteBatch> {
    if p.current == EMPTY_BATCH then p.batches else p.batches + [p.current]
  }

  function Entries(rs: seq<Record>): seq<Entry> {
    seq(|rs|, i requires 0 <= i < |rs| => rs[i].entry)
  }

  /** What the batches so far do to the tables. */
  function Effect(c: Codec, s: Store, p: Replay): Store {
    ApplyBatch(c, ApplyBatches(c, s, p.batches), p.current)
  }

  lemma AppendEach<T>(xs: seq<T>, x: T)
    ensures (xs + [x])[..|xs|] == xs && (xs + [x])[|xs|] == x
  {}

  /** Collecting one more entry adds that entry's effect, although other kinds may be applied after it. */
  lemma CollectEffect(c: Codec, s: Store, p: Replay, e: Entry)
    ensures Effect(c, s, Collect(p, e)) == if e.Batch? then Effect(c, s, p) else Meant(c, Effect(c, s, p), e)
  {
    var b := p.current;
    match e {
      case SaveBlock(_, x) => AppendEach(b.blocks, x);
      case SaveTransaction(_, x) => AppendEach(b.transactions, x);
      case SaveAccount(a, x) => AppendEach(b.accounts, (a, Some(x)));
      case DeleteAccount(a) => AppendEach(b.accounts, (a, None));
      case SaveStateRoot(h, r) => AppendEach(b.stateRoots, (h, r));
      case Batch(_) =>
      case Checkpoint(_, _) => AppendEach(p.batches, b);
    }
  }

  lemma {:induction false} CollectAllEffect(c: Codec, s: Store, rs: seq<Record>)
    requires forall i :: 0 <= i < |rs| ==> Genuine(c, rs[i])
    ensures Effect(c, s, CollectAll(c, rs)) == WithoutBatches(c, s, Entries(rs))
  {
    if rs != [] {
      var n := |rs| - 1;
      CollectAllEffect(c, s, rs[..n]);
      assert Entries(rs)[..n] == Entries(rs[..n]);
      CollectEffect(c, s, CollectAll(c, rs[..n]), rs[n].entry);
    }
  }

  /** Regrouping by kind and splitting at checkpoints changes nothing: applying the recovered batches gives the
      tables that applying the log entries one by one gives, from any tables. Batch entries alone are passed over. */
  lemma ReplayMatchesLog(c: Codec, s: Store, rs: seq<Record>)
    requires forall i :: 0 <= i < |rs| ==> Genuine(c, rs[i])
    ensures ApplyBatches(c, s, Batches(CollectAll(c, rs))) == WithoutBatches(c, s, Entries(rs))
    ensures (forall i :: 0 <= i < |rs| ==> !WritingBatch(rs[i].entry)) ==>
              ApplyBatches(c, s, Batches(CollectAll(c, rs))) == MeantAll(c, s, Entries(rs))
  {
    var p := CollectAll(c, rs);
    CollectAllEffect(c, s, rs);
    AppendEach(p.batches, p.current);
    assert p.current == EMPTY_BATCH ==> Effect(c, s, p) == ApplyBatches(c, s, p.batches);
    if forall i :: 0 <= i < |rs| ==> !WritingBatch(rs[i].entry) {
      NothingWrittenNothingLost(c, s, Entries(rs));
    }
  }

  /** Exactly the writing batches are lost: collecting an entry has the entry's meaning, from every state of the replay
      and on all tables, if and only if it is not a batch with a write inside. */
  lemma ReplayedExactly(c: Codec, e: Entry)
    ensures (forall p, s :: Effect(c, s, Collect(p, e)) == Meant(c, Effect(c, s, p), e)) <==> !WritingBatch(e)
  {
    if WritingBatch(e) {
      var s := WritingChanges(c, e);
      assert Effect(c, s, NOTHING_YET) == s;
      assert Effect(c, s, Collect(NOTHING_YET, e)) == s;
    } else {
      forall p, s ensures Effect(c, s, Collect(p, e)) == Meant(c, Effect(c, s, p), e) {
        CollectEffect(c, s, p, e);
        var t := EndsInLastWrite(c, Effect(c, s, p), e);
      }
    }
  }

  /** A log of one writing batch recovers to nothing at all, although some tables would have changed. */
  lemma BatchIsNotReplayed(c: Codec, r: Record) returns (s: Store)
    requires Genuine(c, r) && WritingBatch(r.entry)
    ensures Batches(CollectAll(c, [r])) == []
    ensures MeantAll(c, s, Entries([r])) != s
  {
    s := WritingChanges(c, r.entry);
    assert [r][..0] == [];
    assert Entries([r]) == [r.entry];
    assert [r.entry][..0] == [];
  }

  // ----- framing

  /** A 32-bit length as four little-endian bytes. */
  function LengthBytes(n: nat): (bytes: seq<Byte>)
    requires n < U32
    ensures |bytes| == 4 && LengthOf(bytes) == n
  {
    var q1 := n / 256;
    var q2 := q1 / 256;
    var q3 := q2 / 256;
    [n % 256, q1 % 256, q2 % 256, q3]
  }

  function LengthOf(bytes: seq<Byte>): nat
    requires |bytes| == 4
  {
    bytes[0] as int + 256 * (bytes[1] as int + 256 * (bytes[2] as int + 256 * bytes[3] as int))
  }

  /** Four length bytes, then the record; the length is cut to 32 bits. */
  function Frame(c: Codec, r: Record): seq<Byte> {
    LengthBytes(|c.encode(r)| % U32) + c.encode(r)
  }

  function Frames(c: Codec, rs: seq<Record>): seq<Byte> {
    if rs == [] then [] else Frame(c, rs[0]) + Frames(c, rs[1..])
  }

  ghost predicate Fits(c: Codec, rs: seq<Record>) {
    forall i :: 0 <= i < |rs| ==> |c.encode(rs[i])| < U32
  }

  datatype FrameRead = End | Broken | Next(record: Record, rest: seq<Byte>)

  /** Reading on: an incomplete length field ends the file, an incomplete or unreadable record is an error. */
  function NextFrame(c: Codec, bytes: seq<Byte>): (f: FrameRead)
    ensures f.Next? ==> |f.rest| < |bytes|
  {
    if |bytes| < 4 then End
    else
      var len := LengthOf(bytes[..4]);
      if |bytes| < 4 + len then Broken
      else
        match c.decode(bytes[4..4 + len])
        case None => Broken
        case Some(r) => Next(r, bytes[4 + len..])
  }

  function Parse(c: Codec, bytes: seq<Byte>): Option<seq<Record>>
    decreases |bytes|
  {
    match NextFrame(c, bytes)
    case End => Some([])
    case Broken => None
    case Next(r, rest) => Prepend(r, Parse(c, rest))
  }

  function Prepend(r: Record, rest: Option<seq<Record>>): Option<seq<Record>> {
    match rest
    case None => None
    case Some(rs) => Some([r] + rs)
  }

  lemma NextAfterHead(c: Codec, head: seq<Byte>, body: seq<Byte>, rest: seq<Byte>)
    requires |head| == 4 && LengthOf(head) == |body|
    ensures NextFrame(c, head + body + rest)
            == match c.decode(body) case None => Broken case Some(r) => Next(r, rest)
  {
    var bytes := head + body + rest;
    assert bytes[..4] == head;
    assert bytes[4..4 + |body|] == body;
    assert bytes[4 + |body|..] == rest;
  }

  lemma NextAfterCutHead(c: Codec, head: seq<Byte>, part: seq<Byte>)
    requires |head| == 4 && LengthOf(head) > |part|
    ensures NextFrame(c, head + part) == Broken
  {
    assert (head + part)[..4] == head;
  }

  lemma NextWholeFrame(c: Codec, r: Record, rest: seq<Byte>)
    requires RoundTrips(c) && |c.encode(r)| < U32
    ensures NextFrame(c, Frame(c, r) + rest) == Next(r, rest)
  {
    NextAfterHead(c, LengthBytes(|c.encode(r)| % U32), c.encode(r), rest);
  }

  lemma ParseFrame(c: Codec, r: Record, rest: seq<Byte>)
    requires RoundTrips(c) && |c.encode(r)| < U32
    ensures Parse(c, Frame(c, r) + rest) == Prepend(r, Parse(c, rest))
  {
    NextWholeFrame(c, r, rest);
  }

  lemma Regroup(a: seq<Byte>, b: seq<Byte>, d: seq<Byte>)
    ensures (a + b) + d == a + (b + d)
  {}

  lemma {:induction false} FramesConcat(c: Codec, rs: seq<Record>, more: seq<Record>)
    ensures Frames(c, rs + more) == Frames(c, rs) + Frames(c, more)
  {
    if rs == [] {
      assert rs + more == more;
      assert [] + Frames(c, more) == Frames(c, more);
    } else {
      FramesConcat(c, rs[1..], more);
      assert (rs + more)[1..] == rs[1..] + more && (rs + more)[0] == rs[0];
      Regroup(Frame(c, rs[0]), Frames(c, rs[1..]), Frames(c, more));
    }
  }

  /** Reading any prefix of a written file. With k records complete, a cut at the boundary or inside the next length
      field yields exactly those k; a cut inside the next record's body is an error. */
  lemma {:induction false} CutFile(c: Codec, rs: seq<Record>, n: nat) returns (k: nat)
    requires RoundTrips(c) && Fits(c, rs) && n <= |Frames(c, rs)|
    ensures k <= |rs| && |Frames(c, rs[..k])| <= n
    ensures k < |rs| ==> n < |Frames(c, rs[..k])| + |Frame(c, rs[k])|
    ensures Parse(c, Frames(c, rs)[..n]) == if n - |Frames(c, rs[..k])| < 4 then Some(rs[..k]) else None
  {
    if rs == [] {
      k := 0;
      assert rs[..0] == rs;
    } else if n < |Frame(c, rs[0])| {
      k := 0;
      assert rs[..0] == [];
      CutFrame(c, rs[0], Frames(c, rs[1..]), n);
    } else {
      var j := CutFile(c, rs[1..], n - |Frame(c, rs[0])|);
      k := j + 1;
      CutLater(c, rs, n, j);
    }
  }

  /** A cut after the first record is a cut of the other records. */
  lemma CutLater(c: Codec, rs: seq<Record>, n: nat, j: nat)
    requires RoundTrips(c) && Fits(c, rs) && n <= |Frames(c, rs)| && j < |rs| && |Frame(c, rs[0])| <= n
    ensures |Frames(c, rs[..j + 1])| == |Frame(c, rs[0])| + |Frames(c, rs[1..][..j])|
    ensures rs[..j + 1] == [rs[0]] + rs[1..][..j]
    ensures Parse(c, Frames(c, rs)[..n]) == Prepend(rs[0], Parse(c, Frames(c, rs[1..])[..n - |Frame(c, rs[0])|]))
  {
    var first, rest := Frame(c, rs[0]), Frames(c, rs[1..]);
    assert rs[..j + 1][0] == rs[0] && rs[..j + 1][1..] == rs[1..][..j];
    CutAfter(first, rest, n);
    ParseFrame(c, rs[0], rest[..n - |first|]);
  }

  lemma CutAfter(first: seq<Byte>, rest: seq<Byte>, n: nat)
    requires |first| <= n <= |first| + |rest|
    ensures (first + rest)[..n] == first + rest[..n - |first|]
  {}

  lemma CutAfterHead(c: Codec, head: seq<Byte>, body: seq<Byte>, rest: seq<Byte>, n: nat)
    requires |head| == 4 && LengthOf(head) == |body| && n < 4 + |body|
    ensures NextFrame(c, (head + body + rest)[..n]) == if n < 4 then End else Broken
  {
    if n >= 4 {
      assert (head + body + rest)[..n] == head + body[..n - 4];
      NextAfterCutHead(c, head, body[..n - 4]);
    }
  }

  lemma NextCutFrame(c: Codec, r: Record, rest: seq<Byte>, n: nat)
    requires |c.encode(r)| < U32 && n < |Frame(c, r)|
    ensures NextFrame(c, (Frame(c, r) + rest)[..n]) == if n < 4 then End else Broken
  {
    CutAfterHead(c, LengthBytes(|c.encode(r)| % U32), c.encode(r), rest, n);
  }

  lemma CutFrame(c: Codec, r: Record, rest: seq<Byte>, n: nat)
    requires |c.encode(r)| < U32 && n < |Frame(c, r)|
    ensures Parse(c, (Frame(c, r) + rest)[..n]) == if n < 4 then Some([]) else None
  {
    NextCutFrame(c, r, rest, n);
  }

  /** A whole file reads back as the records written to it. */
  lemma {:induction false} ParseFrames(c: Codec, rs: seq<Record>)
    requires RoundTrips(c) && Fits(c, rs)
    ensures Parse(c, Frames(c, rs)) == Some(rs)
  {
    if rs != [] {
      ParseFrames(c, rs[1..]);
      ParseFrame(c, rs[0], Frames(c, rs[1..]));
      assert [rs[0]] + rs[1..] == rs;
    }
  }

  /** Recovery of a log cut off anywhere: unless the cut falls inside a record's body, which is reported, the tables
      are those of the first k entries applied one by one, where k counts the records that are complete. */
  lemma RecoveryAfterCut(c: Codec, s: Store, rs: seq<Record>, n: nat) returns (k: nat)
    requires RoundTrips(c) && Fits(c, rs) && n <= |Frames(c, rs)|
    requires forall i :: 0 <= i < |rs| ==> Genuine(c, rs[i])
    ensures k <= |rs| && |Frames(c, rs[..k])| <= n && (k < |rs| ==> n < |Frames(c, rs[..k])| + |Frame(c, rs[k])|)
    ensures match Parse(c, Frames(c, rs)[..n])
            case None => 4 <= n - |Frames(c, rs[..k])|
            case Some(read) =>
              n - |Frames(c, rs[..k])| < 4 &&
              ApplyBatches(c, s, Batches(CollectAll(c, read))) == WithoutBatches(c, s, Entries(rs)[..k])
  {
    k := CutFile(c, rs, n);
    PrefixReplays(c, s, rs, k);
  }

  lemma PrefixReplays(c: Codec, s: Store, rs: seq<Record>, k: nat)
    requires k <= |rs| && forall i :: 0 <= i < |rs| ==> Genuine(c, rs[i])
    ensures ApplyBatches(c, s, Batches(CollectAll(c, rs[..k]))) == WithoutBatches(c, s, Entries(rs)[..k])
  {
    ReplayMatchesLog(c, s, rs[..k]);
    assert Entries(rs[..k]) == Entries(rs)[..k];
  }

  // ----- storage and log as the node runs them

  class MemoryStorage {
    const codec: Codec
    var blocks: seq<S.Block>
    var transactions: map<Hash, S.Tx>
    var accounts: Accounts
    var stateRoots: map<nat, Hash>

    ghost function Tables(): Store
      reads this
    {
      Store(blocks, transactions, accounts, stateRoots)
    }

    constructor (codec: Codec)
      ensures this.codec == codec && Tables() == Store([], map[], map[], map[])
    {
      this.codec := codec;
      blocks, transactions, accounts, stateRoots := [], map[], map[], map[];
    }

    method SaveBlock(block: S.Block)
      modifies `blocks
      ensures blocks == PutBlock(codec.genesis, old(blocks), block)
    {
      if block.height >= |blocks| {
        blocks := blocks + seq(block.height + 1 - |blocks|, _ => codec.genesis);
      }
      blocks := blocks[block.height := block];
    }

    /** One table after the other, each in batch order. */
    method WriteAll(batch: WriteBatch)
      modifies this
      ensures Tables() == ApplyBatch(codec, old(Tables()), batch)
    {
      WriteBlocks(batch.blocks);
      WriteTransactions(batch.transactions);
      WriteAccounts(batch.accounts);
      WriteRoots(batch.stateRoots);
    }

    method WriteBlocks(news: seq<S.Block>)
      modifies `blocks
      ensures blocks == PutBlocks(codec.genesis, old(blocks), news)
    {
      for i := 0 to |news|
        invariant blocks == PutBlocks(codec.genesis, old(blocks), news[..i])
      {
        assert news[..i + 1][..i] == news[..i];
        SaveBlock(news[i]);
      }
      assert news[..|news|] == news;
    }

    method WriteTransactions(news: seq<S.Tx>)
      modifies `transactions
      ensures transactions == PutTransactions(codec.txHash, old(transactions), news)
    {
      for i := 0 to |news|
        invariant transactions == PutTransactions(codec.txHash, old(transactions), news[..i])
      {
        assert news[..i + 1][..i] == news[..i];
        transactions := transactions[codec.txHash(news[i]) := news[i]];
      }
      assert news[..|news|] == news;
    }

    method WriteAccounts(news: seq<(Address, Option<Account>)>)
      modifies `accounts
      ensures accounts == PutAccounts(old(accounts), news)
    {
      for i := 0 to |news|
        invariant accounts == PutAccounts(old(accounts), news[..i])
      {
        assert news[..i + 1][..i] == news[..i];
        match news[i].1 {
          case Some(a) => accounts := accounts[news[i].0 := a];
          case None => accounts := accounts - {news[i].0};
        }
      }
      assert news[..|news|] == news;
    }

    method WriteRoots(news: seq<(nat, Hash)>)
      modifies `stateRoots
      ensures stateRoots == PutRoots(old(stateRoots), news)
    {
      for i := 0 to |news|
        invariant stateRoots == PutRoots(old(stateRoots), news[..i])
      {
        assert news[..i + 1][..i] == news[..i];
        stateRoots := stateRoots[news[i].0 := news[i].1];
      }
      assert news[..|news|] == news;
    }
  }

  /** The file consists of exactly these records, all of them genuine. */
  ghost predicate Holds(c: Codec, file: seq<Byte>, rs: seq<Record>) {
    file == Frames(c, rs) && forall i :: 0 <= i < |rs| ==> Genuine(c, rs[i])
  }

  lemma HoldsOneMore(c: Codec, file: seq<Byte>, rs: seq<Record>, r: Record)
    requires Holds(c, file, rs) && Genuine(c, r)
    ensures Holds(c, file + Frame(c, r), rs + [r])
    ensures Entries(rs + [r]) == Entries(rs) + [r.entry]
  {
    FramesConcat(c, rs, [r]);
    OneFrame(c, r);
  }

  /** The batches have the effect of the entries, on all tables; only writing batches are passed over. */
  ghost predicate Replays(c: Codec, batches: seq<WriteBatch>, es: seq<Entry>) {
    forall s :: && ApplyBatches(c, s, batches) == WithoutBatches(c, s, es)
                && ((forall i :: 0 <= i < |es| ==> !WritingBatch(es[i])) ==>
                      ApplyBatches(c, s, batches) == MeantAll(c, s, es))
  }

  lemma RecoveredReplays(c: Codec, rs: seq<Record>)
    requires forall i :: 0 <= i < |rs| ==> Genuine(c, rs[i])
    ensures Replays(c, Batches(CollectAll(c, rs)), Entries(rs))
  {
    var es := Entries(rs);
    forall s
      ensures ApplyBatches(c, s, Batches(CollectAll(c, rs))) == WithoutBatches(c, s, es)
      ensures (forall i :: 0 <= i < |es| ==> !WritingBatch(es[i])) ==>
                ApplyBatches(c, s, Batches(CollectAll(c, rs))) == MeantAll(c, s, es)
    {
      ReplayMatchesLog(c, s, rs);
      if forall i :: 0 <= i < |es| ==> !WritingBatch(es[i]) {
        NothingWrittenNothingLost(c, s, es);
      }
    }
  }

  /** The file holds these records: those from before, then one for each entry written since. */
  ghost predicate Grown(c: Codec, file: seq<Byte>, rs: seq<Record>, before: seq<Record>, written: seq<Entry>) {
    Holds(c, file, rs) && before <= rs && Entries(rs) == Entries(before) + written
  }

  lemma GrownOneMore(c: Codec, file: seq<Byte>, rs: seq<Record>, before: seq<Record>, written: seq<Entry>, r: Record)
    requires Grown(c, file, rs, before, written) && Genuine(c, r)
    ensures Grown(c, file + Frame(c, r), rs + [r], before, written + [r.entry])
  {
    HoldsOneMore(c, file, rs, r);
    assert Entries(before) + written + [r.entry] == Entries(before) + (written + [r.entry]);
  }

  /** All records from position k on carry the magic number, the version, this sequence number and this time. */
  ghost predicate StampedSince(c: Codec, rs: seq<Record>, k: nat, lsn: nat, now: nat) {
    forall i :: k <= i < |rs| ==>
      rs[i] == Record(0x50435741, 1, lsn, now, rs[i].entry, c.checksum(lsn, now))
  }

  class WalManager {
    const codec: Codec
    const enabled: bool
    const maxPending: nat
    var file: seq<Byte>
    var isOpen: bool
    var currentLsn: nat
    var pending: seq<Entry>
    /** The records in the file, and every entry appended while the file was open. */
    ghost var records: seq<Record>
    ghost var history: seq<Entry>

    /** File plus pending list is the append history. */
    ghost predicate Valid()
      reads this
    {
      Holds(codec, file, records) && (!enabled ==> pending == []) &&
      history == if isOpen then Entries(records) + pending else Entries(records)
    }

    constructor (codec: Codec, enabled: bool, maxPending: nat, lsn: nat)
      ensures Valid() && isOpen && history == [] && file == [] && pending == [] && currentLsn == lsn
      ensures this.codec == codec && this.enabled == enabled && this.maxPending == maxPending
    {
      this.codec, this.enabled, this.maxPending := codec, enabled, maxPending;
      file, isOpen, currentLsn, pending, records, history := [], true, lsn, [], [], [];
    }

    /** Only a full pending list on a closed file makes this fail. */
    method Append(entry: Entry, now: nat) returns (lsn: Option<nat>)
      requires Valid()
      modifies this
      ensures Valid() && isOpen == old(isOpen)
      ensures history == if enabled && isOpen then old(history) + [entry] else old(history)
      ensures enabled && isOpen ==> lsn == Some(old(currentLsn) + 1) && currentLsn == old(currentLsn) + 1
      ensures enabled && isOpen && |old(pending)| + 1 < maxPending ==>
                file == old(file) && pending == old(pending) + [entry]
      ensures enabled && isOpen && |old(pending)| + 1 >= maxPending ==> pending == []
      ensures !enabled ==> lsn == Some(0) && file == old(file) && pending == old(pending)
    {
      if !enabled {
        return Some(0);
      }
      currentLsn := currentLsn + 1;
      lsn := Some(currentLsn);
      assert isOpen ==> Entries(records) + (pending + [entry]) == Entries(records) + pending + [entry];
      pending := pending + [entry];
      if isOpen {
        history := history + [entry];
      }
      if |pending| >= maxPending {
        var ok := Flush(now);
        if !ok {
          return None;
        }
      }
    }

    /** Moves all pending entries to the file, in order. On a closed file they are dropped and an error returned. */
    method Flush(now: nat) returns (ok: bool)
      requires Valid()
      modifies `file, `pending, `records
      ensures Valid()
      ensures !enabled ==> ok && file == old(file) && pending == old(pending)
      ensures enabled ==> pending == [] && ok == (isOpen || old(pending) == [])
      ensures enabled && isOpen ==> old(records) <= records && Entries(records) == history
                                    && StampedSince(codec, records, |old(records)|, currentLsn, now)
    {
      if !enabled {
        return true;
      }
      var batch := pending;
      pending := [];
      if batch == [] {
        return true;
      }
      if !isOpen {
        return false;
      }
      WriteRecords(batch, now);
      assert Entries(records) + [] == Entries(records);
      return true;
    }

    method WriteRecords(batch: seq<Entry>, now: nat)
      requires Holds(codec, file, records)
      modifies `file, `records
      ensures Grown(codec, file, records, old(records), batch)
      ensures StampedSince(codec, records, |old(records)|, currentLsn, now)
    {
      assert Entries(records) + batch[..0] == Entries(records);
      for i := 0 to |batch|
        invariant Grown(codec, file, records, old(records), batch[..i])
        invariant StampedSince(codec, records, |old(records)|, currentLsn, now)
      {
        var record := Stamped(codec, currentLsn, now, batch[i]);
        GrownOneMore(codec, file, records, old(records), batch[..i], record);
        assert batch[..i] + [batch[i]] == batch[..i + 1];
        WriteRecord(record);
        records := records + [record];
      }
      assert batch[..|batch|] == batch;
    }

    method WriteRecord(record: Record)
      modifies `file
      ensures file == old(file) + Frame(codec, record)
    {
      var bytes := codec.encode(record);
      file := file + LengthBytes(|bytes| % U32);
      file := file + bytes;
    }

    /** After closing, the file holds everything that was appended. */
    method Close(now: nat) returns (ok: bool)
      requires Valid()
      modifies this
      ensures Valid() && history == old(history)
      ensures ok ==> !isOpen && pending == [] && Entries(records) == history
      ensures !ok <==> old(!isOpen && pending != [])
    {
      ok := Flush(now);
      if ok {
        isOpen := false;
      }
    }

    /** Reads a file back into batches. What the batches do to any tables is what the flushed entries do one by one. */
    method RecoverFromFile(bytes: seq<Byte>) returns (batches: Option<seq<WriteBatch>>)
      ensures match Parse(codec, bytes)
              case None => batches == None
              case Some(rs) => batches == Some(Batches(CollectAll(codec, rs)))
    {
      var p := NOTHING_YET;
      var pos := 0;
      ghost var seen: seq<Record> := [];
      assert bytes[0..] == bytes;
      PrecededNothing(Parse(codec, bytes));
      while pos + 4 <= |bytes|
        invariant pos <= |bytes| && p == CollectAll(codec, seen)
        invariant Parse(codec, bytes) == Preceded(seen, Parse(codec, bytes[pos..]))
        decreases |bytes| - pos
      {
        var record, next := ReadFrame(bytes, pos);
        if record == None {
          return None;
        }
        PrecededStep(seen, record.value, Parse(codec, bytes[next..]));
        CollectOneMore(codec, seen, record.value);
        p, pos, seen := CollectRecord(codec, p, record.value), next, seen + [record.value];
      }
      assert Parse(codec, bytes[pos..]) == Some([]);
      assert seen + [] == seen;
      return Some(Batches(p));
    }

    /** Flushing and recovering: unless a record is too long for its length field, the recovered batches do to any
        tables what the entries appended so far do in order, writing batches aside. */
    method FlushAndRecover(now: nat) returns (batches: Option<seq<WriteBatch>>)
      requires Valid() && enabled && isOpen && RoundTrips(codec)
      modifies `file, `pending, `records
      ensures Valid() && pending == []
      ensures Fits(codec, records) ==> batches.Some? && Replays(codec, batches.value, history)
    {
      var ok := Flush(now);
      batches := RecoverFromFile(file);
      if Fits(codec, records) {
        ParseFrames(codec, records);
        RecoveredReplays(codec, records);
      }
    }

    /** The length field at pos is there; what follows may be short or unreadable. */
    method ReadFrame(bytes: seq<Byte>, pos: nat) returns (record: Option<Record>, next: nat)
      requires pos + 4 <= |bytes|
      ensures record == None ==> Parse(codec, bytes[pos..]) == None
      ensures record.Some? ==> pos < next <= |bytes| &&
                               Parse(codec, bytes[pos..]) == Prepend(record.value, Parse(codec, bytes[next..]))
    {
      var len := LengthOf(bytes[pos..pos + 4]);
      NextAt(codec, bytes, pos);
      next := pos + 4 + len;
      if next > |bytes| {
        return None, next;
      }
      record := codec.decode(bytes[pos + 4..next]);
    }
  }

  /** The next frame of a file read from position pos. */
  lemma NextAt(c: Codec, bytes: seq<Byte>, pos: nat)
    requires pos + 4 <= |bytes|
    ensures var len := LengthOf(bytes[pos..pos + 4]);
            NextFrame(c, bytes[pos..])
            == if pos + 4 + len > |bytes| then Broken
               else match c.decode(bytes[pos + 4..pos + 4 + len])
                    case None => Broken
                    case Some(r) => Next(r, bytes[pos + 4 + len..])
  {
    var rest, len := bytes[pos..], LengthOf(bytes[pos..pos + 4]);
    assert rest[..4] == bytes[pos..pos + 4];
    if pos + 4 + len <= |bytes| {
      assert rest[4..4 + len] == bytes[pos + 4..pos + 4 + len];
      assert rest[4 + len..] == bytes[pos + 4 + len..];
    }
  }

  function Preceded(seen: seq<Record>, rest: Option<seq<Record>>): Option<seq<Record>> {
    match rest
    case None => None
    case Some(rs) => Some(seen + rs)
  }

  lemma PrecededNothing(rest: Option<seq<Record>>)
    ensures Preceded([], rest) == rest
  {
    if rest.Some? {
      assert [] + rest.value == rest.value;
    }
  }

  lemma PrecededStep(seen: seq<Record>, r: Record, rest: Option<seq<Record>>)
    ensures Preceded(seen, Prepend(r, rest)) == Preceded(seen + [r], rest)
  {
    if rest.Some? {
      assert seen + ([r] + rest.value) == seen + [r] + rest.value;
    }
  }

  lemma OneFrame(c: Codec, r: Record)
    ensures Frames(c, [r]) == Frame(c, r)
  {
    assert Frames(c, [r][1..]) == [];
  }
}
