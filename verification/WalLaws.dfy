/** What storage and recovery leave in the tables, entry by entry: the last write of a slot wins. */
module WalLaws {
  import opened Base
  import opened Ledger
  import S = StateStore
  import opened WriteAheadLog

  // ----- one block

  /** The slot of the block's height holds it, every other slot keeps its block, and slots in between hold genesis. */
  lemma PutBlockAt(genesis: S.Block, blocks: seq<S.Block>, b: S.Block, i: nat)
    ensures var after := PutBlock(genesis, blocks, b);
            && |after| == (if b.height < |blocks| then |blocks| else b.height + 1)
            && (i < |after| ==>
                  after[i] == if i == b.height then b else if i < |blocks| then blocks[i] else genesis)
  {}

  // ----- a whole log: k is one past the last entry that touches the slot, or 0 when none does

  ghost predicate TouchesAccount(e: Entry, a: Address) {
    (e.SaveAccount? || e.DeleteAccount?) && e.address == a
  }

  /** After a log an account is as the last entry about it says: saved, or deleted. */
  lemma {:induction false} AccountAfterLog(c: Codec, s: Store, es: seq<Entry>, a: Address, k: nat)
    requires k <= |es| && forall j :: k <= j < |es| ==> !TouchesAccount(es[j], a)
    requires k == 0 || TouchesAccount(es[k - 1], a)
    ensures Lookup(WithoutBatches(c, s, es).accounts, a)
            == if k == 0 then Lookup(s.accounts, a)
               else if es[k - 1].SaveAccount? then Some(es[k - 1].account)
               else None
  {
    if es != [] && k < |es| {
      AccountAfterLog(c, s, es[..|es| - 1], a, k);
    }
  }

  ghost predicate TouchesBlock(e: Entry, h: nat) {
    e.SaveBlock? && e.block.height == h
  }

  /** A block slot holds the last block saved for its height. */
  lemma {:induction false} BlockAfterLog(c: Codec, s: Store, es: seq<Entry>, h: nat, k: nat)
    requires k <= |es| && forall j :: k <= j < |es| ==> !TouchesBlock(es[j], h)
    requires k == 0 || TouchesBlock(es[k - 1], h)
    ensures var after := WithoutBatches(c, s, es).blocks;
            && |s.blocks| <= |after|
            && (k > 0 ==> h < |after| && after[h] == es[k - 1].block)
            && (k == 0 && h < |after| ==> after[h] == if h < |s.blocks| then s.blocks[h] else c.genesis)
  {
    if es != [] {
      var n := |es| - 1;
      if k < |es| {
        BlockAfterLog(c, s, es[..n], h, k);
      } else {
        BlocksGrow(c, s, es[..n]);
      }
      if es[n].SaveBlock? {
        PutBlockAt(c.genesis, WithoutBatches(c, s, es[..n]).blocks, es[n].block, h);
      }
    }
  }

  lemma {:induction false} BlocksGrow(c: Codec, s: Store, es: seq<Entry>)
    ensures |s.blocks| <= |WithoutBatches(c, s, es).blocks|
  {
    if es != [] {
      BlocksGrow(c, s, es[..|es| - 1]);
    }
  }

  ghost predicate TouchesTransaction(c: Codec, e: Entry, h: Hash) {
    e.SaveTransaction? && c.txHash(e.transaction) == h
  }

  /** A transaction is found under its own hash, whatever hash the entry names. */
  lemma {:induction false} TransactionAfterLog(c: Codec, s: Store, es: seq<Entry>, h: Hash, k: nat)
    requires k <= |es| && forall j :: k <= j < |es| ==> !TouchesTransaction(c, es[j], h)
    requires k == 0 || TouchesTransaction(c, es[k - 1], h)
    ensures var after := WithoutBatches(c, s, es).transactions;
            && (k > 0 ==> h in after && after[h] == es[k - 1].transaction)
            && (k == 0 ==> (h in after <==> h in s.transactions) && (h in after ==> after[h] == s.transactions[h]))
  {
    if es != [] && k < |es| {
      TransactionAfterLog(c, s, es[..|es| - 1], h, k);
    }
  }

  ghost predicate TouchesRoot(e: Entry, h: nat) {
    e.SaveStateRoot? && e.height == h
  }

  lemma {:induction false} RootAfterLog(c: Codec, s: Store, es: seq<Entry>, h: nat, k: nat)
    requires k <= |es| && forall j :: k <= j < |es| ==> !TouchesRoot(es[j], h)
    requires k == 0 || TouchesRoot(es[k - 1], h)
    ensures var after := WithoutBatches(c, s, es).stateRoots;
            && (k > 0 ==> h in after && after[h] == es[k - 1].root)
            && (k == 0 ==> (h in after <==> h in s.stateRoots) && (h in after ==> after[h] == s.stateRoots[h]))
  {
    if es != [] && k < |es| {
      RootAfterLog(c, s, es[..|es| - 1], h, k);
    }
  }

  // ----- files with foreign records

  /** The records that carry the magic number, the version and the checksum of their own header. */
  function Sound(c: Codec, rs: seq<Record>): seq<Record> {
    if rs == [] then []
    else
      var front, r := Sound(c, rs[..|rs| - 1]), rs[|rs| - 1];
      if r.magic == 0x50435741 && r.version == 1 && r.checksum == c.checksum(r.lsn, r.timestamp) then front + [r]
      else front
  }

  lemma {:induction false} SoundIsGenuine(c: Codec, rs: seq<Record>)
    ensures forall i :: 0 <= i < |Sound(c, rs)| ==> WriteAheadLog.Genuine(c, Sound(c, rs)[i])
  {
    if rs != [] {
      SoundIsGenuine(c, rs[..|rs| - 1]);
    }
  }

  lemma {:induction false} OnlySoundCollected(c: Codec, rs: seq<Record>)
    ensures CollectAll(c, rs) == CollectAll(c, Sound(c, rs))
  {
    if rs != [] {
      var n := |rs| - 1;
      OnlySoundCollected(c, rs[..n]);
      CollectOneMore(c, Sound(c, rs[..n]), rs[n]);
    }
  }

  /** Whatever readable file is recovered: its batches do to any tables what the entries of its sound records do one by
      one. Records with another magic number, version or checksum have no effect. */
  lemma AnyFileRecovers(c: Codec, s: Store, bytes: seq<Byte>)
    requires Parse(c, bytes).Some?
    ensures var rs := Parse(c, bytes).value;
            ApplyBatches(c, s, Batches(CollectAll(c, rs))) == WithoutBatches(c, s, Entries(Sound(c, rs)))
  {
    var rs := Parse(c, bytes).value;
    OnlySoundCollected(c, rs);
    SoundIsGenuine(c, rs);
    ReplayMatchesLog(c, s, Sound(c, rs));
  }

  // ----- where one recovered batch ends

  lemma {:induction false} OpenUntilCheckpoint(c: Codec, rs: seq<Record>, mid: seq<Record>)
    requires CollectAll(c, rs).batchOpen
    requires forall i :: 0 <= i < |mid| && Genuine(c, mid[i]) ==> !mid[i].entry.Checkpoint?
    ensures CollectAll(c, rs + mid).batchOpen && CollectAll(c, rs + mid).batches == CollectAll(c, rs).batches
  {
    if mid == [] {
      assert rs + mid == rs;
    } else {
      var n := |mid| - 1;
      OpenUntilCheckpoint(c, rs, mid[..n]);
      assert rs + mid == (rs + mid[..n]) + [mid[n]];
      CollectOneMore(c, rs + mid[..n], mid[n]);
    }
  }

  /** A batch marker and the first checkpoint after it end a recovered batch, and recovery goes on afresh. */
  lemma CheckpointEndsBatch(c: Codec, rs: seq<Record>, mark: Record, mid: seq<Record>, end: Record)
    requires Genuine(c, mark) && mark.entry.Batch? && Genuine(c, end) && end.entry.Checkpoint?
    requires forall i :: 0 <= i < |mid| && Genuine(c, mid[i]) ==> !mid[i].entry.Checkpoint?
    ensures var p := CollectAll(c, rs + [mark] + mid + [end]);
            p.current == EMPTY_BATCH && !p.batchOpen && |p.batches| == |CollectAll(c, rs).batches| + 1
  {
    CollectOneMore(c, rs, mark);
    OpenUntilCheckpoint(c, rs + [mark], mid);
    CollectOneMore(c, rs + [mark] + mid, end);
  }

  /** Without a batch marker everything is recovered as one batch. */
  lemma {:induction false} NoMarkerOneBatch(c: Codec, rs: seq<Record>)
    requires forall i :: 0 <= i < |rs| && Genuine(c, rs[i]) ==> !rs[i].entry.Batch?
    ensures CollectAll(c, rs).batches == [] && !CollectAll(c, rs).batchOpen
  {
    if rs != [] {
      NoMarkerOneBatch(c, rs[..|rs| - 1]);
    }
  }

  // ----- the bytes

  /** A record's frame: its length in four bytes, the lowest first, then its encoding. */
  lemma FrameLayout(c: Codec, r: Record)
    requires |c.encode(r)| < 0x1_0000_0000
    ensures var n, f := |c.encode(r)|, Frame(c, r);
            && |f| == 4 + n && f[4..] == c.encode(r)
            && f[0] == n % 256 && f[1] == n / 256 % 256 && f[2] == n / 0x1_0000 % 256 && f[3] == n / 0x100_0000
  {
    var n := |c.encode(r)|;
    LowestFirst(n);
    assert n % 0x1_0000_0000 == n;
  }

  lemma LowestFirst(n: nat)
    requires n < 0x1_0000_0000
    ensures LengthBytes(n) == [n % 256, n / 256 % 256, n / 0x1_0000 % 256, n / 0x100_0000]
  {
    assert n / 256 / 256 == n / 0x1_0000;
    assert n / 0x1_0000 / 256 == n / 0x100_0000;
  }
}
