/** The account state: transfers and blocks on one map of accounts, and the three layers that store it. */
module StateStore {
  import opened Base
  import opened Ledger

  datatype Tx = Tx(sender: Address, receiver: Address, amount: nat, fee: nat)

  datatype Block = Block(height: nat, hash: Hash, txs: seq<Tx>)

  datatype TransferError = AccountNotFound | InsufficientBalance(required: nat, available: nat)

  datatype Applied = Ok(accounts: Accounts) | Err(error: TransferError)

  // ----- transfers on one map

  /** Both accounts are read first, then the sender is written, then the receiver. */
  function Transfer(m: Accounts, tx: Tx, now: nat): Applied {
    var cost := SatAdd(tx.amount, tx.fee);
    if tx.sender !in m then Err(AccountNotFound)
    else if m[tx.sender].balance < cost then Err(InsufficientBalance(cost, m[tx.sender].balance))
    else
      var before := m[tx.sender];
      var from := Active(before.(nonce := Min(before.nonce + 1, U64_MAX), balance := before.balance - cost), now);
      var target := LookupOr(m, tx.receiver, NewAccount(0, now));
      var to := Active(target.(balance := SatAdd(target.balance, tx.amount)), now);
      Ok(m[tx.sender := from][tx.receiver := to])
  }

  /** The accounts after all transactions in order, if none of them fails. */
  function After(m: Accounts, txs: seq<Tx>, now: nat): Option<Accounts> {
    if txs == [] then Some(m)
    else
      match After(m, txs[..|txs| - 1], now)
      case None => None
      case Some(x) => (match Transfer(x, txs[|txs| - 1], now) case Ok(y) => Some(y) case Err(_) => None)
  }

  function TotalFees(txs: seq<Tx>): nat {
    if txs == [] then 0 else TotalFees(txs[..|txs| - 1]) + txs[|txs| - 1].fee
  }

  /** How many of the transactions are sent by a. */
  function SentBy(txs: seq<Tx>, a: Address): nat {
    if txs == [] then 0
    else SentBy(txs[..|txs| - 1], a) + (if txs[|txs| - 1].sender == a then 1 else 0)
  }

  function NonceOf(m: Accounts, a: Address): nat {
    if a in m then m[a].nonce else 0
  }

  ghost function Balances(m: Accounts): map<Address, nat> {
    map a | a in m :: m[a].balance
  }

  ghost function Total(m: Accounts): nat {
    Sum(Balances(m))
  }

  /** What the transaction's own basic validation guarantees. */
  predicate WellFormed(tx: Tx) {
    tx.sender != tx.receiver && tx.amount + tx.fee <= U128_MAX
  }

  // ----- accounting

  lemma TotalUpdate(m: Accounts, a: Address, x: Account)
    ensures Total(m[a := x]) == Total(m) - (if a in m then m[a].balance else 0) + x.balance
  {
    assert Balances(m[a := x]) == Balances(m)[a := x.balance];
    SumUpdate(Balances(m), a, x.balance);
  }

  lemma TwoBalances(m: Accounts, a: Address, b: Address)
    requires a in m && a != b
    ensures m[a].balance + LookupOr(m, b, NewAccount(0, 0)).balance <= Total(m)
  {
    SumTake(Balances(m), a);
    if b in m {
      SumDominates(Balances(m), a, b);
    }
  }

  /** A transfer between two accounts moves the amount and takes exactly the fee out of circulation. */
  lemma TransferAccounts(m: Accounts, tx: Tx, now: nat)
    requires WellFormed(tx) && Total(m) <= U128_MAX && Transfer(m, tx, now).Ok?
    ensures Total(Transfer(m, tx, now).accounts) == Total(m) - tx.fee
  {
    TwoBalances(m, tx.sender, tx.receiver);
    var m' := Transfer(m, tx, now).accounts;
    TotalUpdate(m, tx.sender, m'[tx.sender]);
    TotalUpdate(m[tx.sender := m'[tx.sender]], tx.receiver, m'[tx.receiver]);
  }

  /** A transfer to oneself overwrites its own debit: it creates the amount. So, short of saturation, the total drops
      by the fee exactly when sender and receiver differ or nothing is moved. */
  lemma SelfTransferMints(m: Accounts, tx: Tx, now: nat)
    requires tx.amount + tx.fee <= U128_MAX && Total(m) + tx.amount <= U128_MAX && Transfer(m, tx, now).Ok?
    ensures tx.sender == tx.receiver ==> Total(Transfer(m, tx, now).accounts) == Total(m) + tx.amount
    ensures Total(Transfer(m, tx, now).accounts) == Total(m) - tx.fee
            <==> tx.sender != tx.receiver || tx.amount + tx.fee == 0
  {
    if tx.sender == tx.receiver {
      var m' := Transfer(m, tx, now).accounts;
      SumTake(Balances(m), tx.sender);
      TotalUpdate(m, tx.sender, m'[tx.sender]);
      assert m' == m[tx.sender := m'[tx.sender]];
    } else {
      TransferAccounts(m, tx, now);
    }
  }

  /** A block's transfers take exactly its fees out of circulation and count every sender's transactions. */
  lemma {:induction false} BlockAccounts(m: Accounts, txs: seq<Tx>, now: nat, a: Address)
    requires forall i :: 0 <= i < |txs| ==> WellFormed(txs[i])
    requires Total(m) <= U128_MAX && NonceOf(m, a) + |txs| <= U64_MAX && After(m, txs, now).Some?
    ensures Total(After(m, txs, now).value) == Total(m) - TotalFees(txs)
    ensures NonceOf(After(m, txs, now).value, a) == NonceOf(m, a) + SentBy(txs, a)
    ensures SentBy(txs, a) <= |txs|
  {
    if txs != [] {
      var n := |txs| - 1;
      BlockAccounts(m, txs[..n], now, a);
      TransferAccounts(After(m, txs[..n], now).value, txs[n], now);
    }
  }

  function BalanceOf(m: Accounts, a: Address): nat {
    if a in m then m[a].balance else 0
  }

  function Outgoing(tx: Tx, a: Address): nat {
    if tx.sender == a then tx.amount + tx.fee else 0
  }

  function Incoming(tx: Tx, a: Address): nat {
    if tx.receiver == a then tx.amount else 0
  }

  /** All that the transactions take from a. */
  function SpentBy(txs: seq<Tx>, a: Address): nat {
    if txs == [] then 0 else SpentBy(txs[..|txs| - 1], a) + Outgoing(txs[|txs| - 1], a)
  }

  /** All that the transactions send to a. */
  function SentTo(txs: seq<Tx>, a: Address): nat {
    if txs == [] then 0 else SentTo(txs[..|txs| - 1], a) + Incoming(txs[|txs| - 1], a)
  }

  /** A transfer debits its sender, credits its receiver and leaves everyone else alone. */
  lemma TransferMoves(m: Accounts, tx: Tx, now: nat, a: Address)
    requires WellFormed(tx) && Total(m) <= U128_MAX && Transfer(m, tx, now).Ok?
    ensures BalanceOf(Transfer(m, tx, now).accounts, a) + Outgoing(tx, a) == BalanceOf(m, a) + Incoming(tx, a)
  {
    TwoBalances(m, tx.sender, tx.receiver);
  }

  /** After a block every balance is what it was, plus what was sent to the account, minus what it sent and paid. */
  lemma {:induction false} BlockMoves(m: Accounts, txs: seq<Tx>, now: nat, a: Address)
    requires forall i :: 0 <= i < |txs| ==> WellFormed(txs[i])
    requires Total(m) <= U128_MAX && After(m, txs, now).Some?
    ensures Total(After(m, txs, now).value) <= U128_MAX
    ensures BalanceOf(After(m, txs, now).value, a) + SpentBy(txs, a) == BalanceOf(m, a) + SentTo(txs, a)
  {
    if txs != [] {
      var n := |txs| - 1;
      var front := After(m, txs[..n], now).value;
      BlockMoves(m, txs[..n], now, a);
      TransferMoves(front, txs[n], now, a);
      TransferAccounts(front, txs[n], now);
    }
  }

  lemma AfterNext(m: Accounts, txs: seq<Tx>, k: nat, now: nat, before: Accounts, after: Accounts)
    requires k < |txs| && After(m, txs[..k], now) == Some(before) && Transfer(before, txs[k], now) == Ok(after)
    ensures After(m, txs[..k + 1], now) == Some(after)
  {
    assert txs[..k + 1][..k] == txs[..k];
  }

  // ----- when a transfer or a block succeeds

  /** A transfer goes through exactly when the sender has an account holding the amount and the fee, which saturate
      at 128 bits; each error says which of the two is missing. */
  lemma TransferAnswers(m: Accounts, tx: Tx, now: nat)
    ensures var cost := if tx.amount + tx.fee <= U128_MAX then tx.amount + tx.fee else U128_MAX;
            && (Transfer(m, tx, now).Ok? <==> tx.sender in m && m[tx.sender].balance >= cost)
            && (Transfer(m, tx, now) == Err(AccountNotFound) <==> tx.sender !in m)
            && (tx.sender in m && m[tx.sender].balance < cost ==>
                  Transfer(m, tx, now) == Err(InsufficientBalance(cost, m[tx.sender].balance)))
  {}

  /** The accounts a transfer between two parties writes, field by field; a receiver without one gets a new account. */
  lemma TransferWrites(m: Accounts, tx: Tx, now: nat)
    requires WellFormed(tx) && Total(m) <= U128_MAX && Transfer(m, tx, now).Ok?
    ensures var after, was := Transfer(m, tx, now).accounts, m[tx.sender];
            && after.Keys == m.Keys + {tx.receiver}
            && (forall a :: a in m && a != tx.sender && a != tx.receiver ==> after[a] == m[a])
            && after[tx.sender] == Account(was.balance - tx.amount - tx.fee,
                                           if was.nonce < U64_MAX then was.nonce + 1 else U64_MAX,
                                           was.staked, was.createdAt, now, false)
            && (tx.receiver !in m ==> after[tx.receiver] == Account(tx.amount, 0, 0, now, now, false))
            && (tx.receiver in m ==>
                  var to := m[tx.receiver];
                  after[tx.receiver] == Account(to.balance + tx.amount, to.nonce, to.staked, to.createdAt, now, false))
  {
    TwoBalances(m, tx.sender, tx.receiver);
  }

  /** A transfer to oneself is written from the account as it was before: only the amount comes in. */
  lemma SelfTransferWrites(m: Accounts, tx: Tx, now: nat)
    requires tx.sender == tx.receiver && Transfer(m, tx, now).Ok?
    ensures var was := m[tx.sender];
            var balance := if was.balance + tx.amount <= U128_MAX then was.balance + tx.amount else U128_MAX;
            Transfer(m, tx, now).accounts
            == m[tx.sender := Account(balance, was.nonce, was.staked, was.createdAt, now, false)]
  {}

  ghost predicate Received(txs: seq<Tx>, a: Address) {
    exists j :: 0 <= j < |txs| && txs[j].receiver == a
  }

  /** When its turn comes, the k-th sender has an account, from before or from an earlier transaction, and what it held
      and received by then covers what it has spent by then and now. */
  ghost predicate Funded(m: Accounts, txs: seq<Tx>, k: nat)
    requires k < |txs|
  {
    var tx := txs[k];
    (tx.sender in m || Received(txs[..k], tx.sender))
    && BalanceOf(m, tx.sender) + SentTo(txs[..k], tx.sender)
       >= SpentBy(txs[..k], tx.sender) + tx.amount + tx.fee
  }

  lemma ReceivedNext(txs: seq<Tx>, n: nat, a: Address)
    requires n == |txs| - 1
    ensures Received(txs, a) <==> Received(txs[..n], a) || txs[n].receiver == a
  {
    if j :| 0 <= j < n && txs[..n][j].receiver == a {
      assert txs[j].receiver == a;
    }
    if j :| 0 <= j < n && txs[j].receiver == a {
      assert txs[..n][j].receiver == a;
    }
  }

  /** After a block exactly the accounts that were there and the receivers have accounts. */
  lemma {:induction false} BlockOpens(m: Accounts, txs: seq<Tx>, now: nat, a: Address)
    requires After(m, txs, now).Some?
    ensures a in After(m, txs, now).value <==> a in m || Received(txs, a)
  {
    if txs != [] {
      var n := |txs| - 1;
      BlockOpens(m, txs[..n], now, a);
      ReceivedNext(txs, n, a);
    }
  }

  /** After a prefix that went through, the next transaction goes through exactly when it is funded. */
  lemma NextSucceeds(m: Accounts, txs: seq<Tx>, now: nat, k: nat)
    requires k < |txs| && forall i :: 0 <= i < |txs| ==> WellFormed(txs[i])
    requires Total(m) <= U128_MAX && After(m, txs[..k], now).Some?
    ensures Transfer(After(m, txs[..k], now).value, txs[k], now).Ok? <==> Funded(m, txs, k)
  {
    var tx, before := txs[k], After(m, txs[..k], now).value;
    BlockMoves(m, txs[..k], now, tx.sender);
    BlockOpens(m, txs[..k], now, tx.sender);
    TransferAnswers(before, tx, now);
  }

  ghost predicate AllFunded(m: Accounts, txs: seq<Tx>) {
    forall k :: 0 <= k < |txs| ==> Funded(m, txs, k)
  }

  lemma AllFundedNext(m: Accounts, txs: seq<Tx>, n: nat)
    requires n == |txs| - 1
    ensures AllFunded(m, txs) <==> AllFunded(m, txs[..n]) && Funded(m, txs, n)
  {
    forall k | 0 <= k < n
      ensures Funded(m, txs[..n], k) <==> Funded(m, txs, k)
    {
      assert txs[..n][..k] == txs[..k];
    }
  }

  /** A block of well-formed transactions goes through exactly when every one of them is funded in its turn. */
  lemma {:induction false} BlockSucceeds(m: Accounts, txs: seq<Tx>, now: nat)
    requires Total(m) <= U128_MAX && forall i :: 0 <= i < |txs| ==> WellFormed(txs[i])
    ensures After(m, txs, now).Some? <==> AllFunded(m, txs)
  {
    if txs != [] {
      var n := |txs| - 1;
      BlockSucceeds(m, txs[..n], now);
      AllFundedNext(m, txs, n);
      if After(m, txs[..n], now).Some? {
        NextSucceeds(m, txs, now, n);
      }
    }
  }

  /** It fails at transaction k exactly when k is the first that is not funded. */
  lemma BlockFailsAt(m: Accounts, txs: seq<Tx>, now: nat, k: nat)
    requires k < |txs| && Total(m) <= U128_MAX && forall i :: 0 <= i < |txs| ==> WellFormed(txs[i])
    ensures (match After(m, txs[..k], now) case Some(x) => Transfer(x, txs[k], now).Err? case None => false)
            <==> (forall j :: 0 <= j < k ==> Funded(m, txs, j)) && !Funded(m, txs, k)
  {
    BlockSucceeds(m, txs[..k], now);
    forall j | 0 <= j < k
      ensures Funded(m, txs[..k], j) <==> Funded(m, txs, j)
    {
      assert txs[..k][..j] == txs[..j];
    }
    if After(m, txs[..k], now).Some? {
      NextSucceeds(m, txs, now, k);
    }
  }

  // ----- the layered store

  datatype Version = Version(height: nat, root: Hash, blockHash: Hash, parentRoot: Hash)

  datatype BlockResult = Committed(version: Version) | WrongHeight | FailedAt(index: nat, error: TransferError)

  function PutAll(stored: Accounts, batch: Accounts, keys: seq<Address>): Accounts
    requires forall i :: 0 <= i < |keys| ==> keys[i] in batch
  {
    if keys == [] then stored
    else PutAll(stored, batch, keys[..|keys| - 1])[keys[|keys| - 1] := batch[keys[|keys| - 1]]]
  }

  lemma {:induction false} PutAllAt(stored: Accounts, batch: Accounts, keys: seq<Address>, a: Address)
    requires forall i :: 0 <= i < |keys| ==> keys[i] in batch
    ensures Lookup(PutAll(stored, batch, keys), a) == if a in keys then Some(batch[a]) else Lookup(stored, a)
  {
    if keys != [] {
      var n := |keys| - 1;
      PutAllAt(stored, batch, keys[..n], a);
      assert keys == keys[..n] + [keys[n]];
    }
  }

  lemma PutAllIsOverlay(stored: Accounts, batch: Accounts, keys: seq<Address>)
    requires forall i :: 0 <= i < |keys| ==> keys[i] in batch
    requires forall a :: a in batch ==> a in keys
    ensures PutAll(stored, batch, keys) == stored + batch
  {
    var result, overlay := PutAll(stored, batch, keys), stored + batch;
    forall a ensures Lookup(result, a) == Lookup(overlay, a) {
      PutAllAt(stored, batch, keys, a);
    }
    forall a ensures a in result <==> a in overlay {
      assert Lookup(result, a) == Lookup(overlay, a);
    }
    forall a | a in result ensures result[a] == overlay[a] {
      assert Lookup(result, a) == Lookup(overlay, a);
    }
  }

  /** Storage takes a batch of accounts one by one, in whatever order the map lists them. */
  method WriteBatch(stored: Accounts, batch: Accounts) returns (after: Accounts)
    ensures after == stored + batch
  {
    var keys := Listing(batch.Keys);
    assert forall a :: a in keys <==> a in Elements(keys);
    after := stored;
    for k := 0 to |keys|
      invariant after == PutAll(stored, batch, keys[..k])
    {
      assert keys[..k + 1][..k] == keys[..k];
      after := after[keys[k] := batch[keys[k]]];
    }
    assert keys[..|keys|] == keys;
    PutAllIsOverlay(stored, batch, keys);
  }

  /** All senders and receivers. */
  ghost function Parties(txs: seq<Tx>): set<Address> {
    if txs == [] then {} else Parties(txs[..|txs| - 1]) + {txs[|txs| - 1].sender, txs[|txs| - 1].receiver}
  }

  lemma PartiesNext(txs: seq<Tx>, k: nat, start: set<Address>, before: set<Address>, after: set<Address>)
    requires k < |txs| && before == start + Parties(txs[..k]) && after == before + {txs[k].sender, txs[k].receiver}
    ensures after == start + Parties(txs[..k + 1])
  {
    assert txs[..k + 1][..k] == txs[..k];
  }

  /** The address has an account with at least this balance. */
  ghost predicate BalanceIn(m: Accounts, a: Address, least: nat) {
    a in m && m[a].balance >= least
  }

  ghost predicate IsPartOf(known: Accounts, m: Accounts) {
    forall a :: a in known ==> a in m && known[a] == m[a]
  }

  class StateManager {
    /** Hash of a set of accounts; not interpreted. */
    const rootOf: Accounts -> Hash
    // storage
    var stored: Accounts
    var storedRoots: map<nat, Hash>
    // memory
    var cache: Accounts
    var dirty: Accounts
    var currentRoot: Hash
    var currentHeight: nat
    var versions: map<nat, Version>

    /** The one map the layers stand for: storage overridden by uncommitted writes. */
    ghost function Logical(): Accounts
      reads this
    {
      stored + dirty
    }

    /** The cache never disagrees with the logical map, and every remembered version is in storage. */
    ghost predicate Valid()
      reads this
    {
      (forall a :: a in cache ==> a in Logical() && cache[a] == Logical()[a]) &&
      (forall h :: h in versions ==> h in storedRoots && storedRoots[h] == versions[h].root)
    }

    constructor (stored: Accounts, storedRoots: map<nat, Hash>, initialRoot: Hash, rootOf: Accounts -> Hash)
      ensures Valid() && Logical() == stored && this.stored == stored && this.storedRoots == storedRoots
      ensures currentHeight == 0 && currentRoot == initialRoot
    {
      this.stored, this.storedRoots, this.rootOf := stored, storedRoots, rootOf;
      cache, dirty, versions := map[], map[], map[];
      currentRoot, currentHeight := initialRoot, 0;
    }

    method GetAccount(a: Address) returns (found: Option<Account>)
      requires Valid()
      modifies `cache
      ensures Valid() && found == Lookup(Logical(), a)
    {
      if a in cache {
        return Some(cache[a]);
      }
      if a in dirty {
        return Some(dirty[a]);
      }
      if a in stored {
        cache := cache[a := stored[a]];
        return Some(stored[a]);
      }
      return None;
    }

    method SetAccount(a: Address, account: Account)
      requires Valid()
      modifies `cache, `dirty
      ensures Valid() && Logical() == old(Logical())[a := account] && dirty == old(dirty)[a := account]
    {
      dirty := dirty[a := account];
      cache := cache[a := account];
    }

    /** On the logical map a transfer is the transfer of the reference; a failed one changes nothing. */
    method ApplyTransfer(tx: Tx, now: nat) returns (error: Option<TransferError>)
      requires Valid()
      modifies `cache, `dirty
      ensures Valid()
      ensures match Transfer(old(Logical()), tx, now)
              case Ok(m) => error == None && Logical() == m
              case Err(e) => error == Some(e) && Logical() == old(Logical())
      ensures tx.amount + tx.fee <= U128_MAX ==>
                (error == None <==> BalanceIn(old(Logical()), tx.sender, tx.amount + tx.fee))
      ensures dirty.Keys == old(dirty.Keys) + (if error == None then {tx.sender, tx.receiver} else {})
    {
      var cost := SatAdd(tx.amount, tx.fee);
      var sender := GetAccount(tx.sender);
      if sender == None {
        return Some(AccountNotFound);
      }
      var from := sender.value;
      if from.balance < cost {
        return Some(InsufficientBalance(cost, from.balance));
      }
      from := Active(from.(nonce := Min(from.nonce + 1, U64_MAX), balance := from.balance - cost), now);
      var receiver := GetAccount(tx.receiver);
      var to := if receiver.Some? then receiver.value else NewAccount(0, now);
      to := Active(to.(balance := SatAdd(to.balance, tx.amount)), now);
      SetAccount(tx.sender, from);
      SetAccount(tx.receiver, to);
      return None;
    }

    /** Applies transfers in order up to the first that fails. */
    method ApplyTransfers(txs: seq<Tx>, now: nat) returns (done: nat, error: Option<TransferError>)
      requires Valid()
      modifies `cache, `dirty
      ensures Valid()
      ensures done <= |txs| && After(old(Logical()), txs[..done], now) == Some(Logical())
      ensures error == None ==> done == |txs|
      ensures error.Some? ==> done < |txs| && Transfer(Logical(), txs[done], now) == Err(error.value)
      ensures dirty.Keys == old(dirty.Keys) + Parties(txs[..done])
    {
      done := 0;
      while done < |txs|
        invariant done <= |txs| && Valid() && After(old(Logical()), txs[..done], now) == Some(Logical())
        invariant dirty.Keys == old(dirty.Keys) + Parties(txs[..done])
      {
        ghost var before, keys := Logical(), dirty.Keys;
        error := ApplyTransfer(txs[done], now);
        if error.Some? {
          return;
        }
        AfterNext(old(Logical()), txs, done, now, before, Logical());
        PartiesNext(txs, done, old(dirty.Keys), keys, dirty.Keys);
        done := done + 1;
      }
      error := None;
    }

    /** All of a block or a prefix of it: on success the new map is committed to storage; on a failure at
        transaction k exactly the first k transfers are in the uncommitted layer and nothing else has moved. */
    method ApplyBlock(block: Block, now: nat) returns (res: BlockResult)
      requires Valid()
      modifies this
      ensures Valid()
      ensures res == WrongHeight <==> block.height != old(currentHeight) + 1
      ensures res == WrongHeight ==> Logical() == old(Logical())
      ensures res.FailedAt? ==> res.index < |block.txs|
                                && After(old(Logical()), block.txs[..res.index], now) == Some(Logical())
                                && Transfer(Logical(), block.txs[res.index], now) == Err(res.error)
      ensures !res.Committed? ==> stored == old(stored) && storedRoots == old(storedRoots) && versions == old(versions)
                                  && currentRoot == old(currentRoot) && currentHeight == old(currentHeight)
      ensures res.Committed? ==> After(old(Logical()), block.txs, now) == Some(Logical())
                                 && stored == Logical() && dirty == map[] && currentHeight == block.height
                                 && currentRoot == res.version.root && res.version.parentRoot == old(currentRoot)
                                 && versions == old(versions)[block.height := res.version]
                                 && storedRoots == old(storedRoots)[block.height := currentRoot]
                                 && res.version.height == block.height && res.version.blockHash == block.hash
      ensures res.Committed? ==> RootFits(currentRoot, block.txs, Logical())
                                 || (block.txs == [] && old(dirty) == map[] && currentRoot == old(currentRoot))
    {
      if block.height != currentHeight + 1 {
        return WrongHeight;
      }
      var done, error := ApplyTransfers(block.txs, now);
      if error.Some? {
        return FailedAt(done, error.value);
      }
      assert block.txs[..done] == block.txs;
      var version := CommitVersion(block);
      return Committed(version);
    }

    /** Records the new root and version, then moves the writes to storage. */
    method CommitVersion(block: Block) returns (version: Version)
      requires Valid() && Parties(block.txs) <= dirty.Keys
      modifies `stored, `dirty, `storedRoots, `versions, `currentRoot, `currentHeight
      ensures Valid() && Logical() == old(Logical()) && stored == Logical() && dirty == map[]
      ensures version == Version(block.height, currentRoot, block.hash, old(currentRoot))
      ensures currentHeight == block.height && versions == old(versions)[block.height := version]
      ensures storedRoots == old(storedRoots)[block.height := currentRoot]
      ensures if old(dirty) == map[] then currentRoot == old(currentRoot)
              else RootFits(currentRoot, block.txs, Logical())
    {
      var newRoot := ComputeStateRoot(block.txs);
      version := Version(block.height, newRoot, block.hash, currentRoot);
      versions := versions[block.height := version];
      storedRoots := storedRoots[block.height := newRoot];
      currentRoot := newRoot;
      currentHeight := block.height;
      CommitDirtyAccounts();
    }

    /** The digest of a part of the accounts that includes every party to the transactions. */
    ghost predicate RootFits(root: Hash, txs: seq<Tx>, m: Accounts) {
      exists known: Accounts :: root == rootOf(known) && IsPartOf(known, m) && Parties(txs) <= known.Keys
    }

    /** Digests the cached and uncommitted accounts; with nothing uncommitted the root stays. */
    method ComputeStateRoot(ghost txs: seq<Tx>) returns (root: Hash)
      requires Valid() && Parties(txs) <= dirty.Keys
      ensures if dirty == map[] then root == currentRoot else RootFits(root, txs, Logical())
    {
      if dirty == map[] {
        return currentRoot;
      }
      var known := cache + dirty;
      assert IsPartOf(known, Logical());
      return rootOf(known);
    }

    /** Moves every uncommitted write to storage; no read changes. */
    method CommitDirtyAccounts()
      requires Valid()
      modifies `stored, `dirty
      ensures Valid() && Logical() == old(Logical()) && stored == Logical() && dirty == map[]
    {
      var batch := dirty;
      dirty := map[];
      stored := WriteBatch(stored, batch);
    }

    /** Succeeds exactly for a recorded height; it drops the uncommitted writes and only those. */
    method RevertToHeight(height: nat) returns (ok: bool)
      requires Valid()
      modifies `cache, `dirty, `currentRoot, `currentHeight
      ensures Valid()
      ensures ok <==> height in storedRoots
      ensures ok ==> Logical() == stored && dirty == map[]
                     && currentHeight == height && currentRoot == storedRoots[height]
      ensures !ok ==> Logical() == old(Logical())
                      && currentRoot == old(currentRoot) && currentHeight == old(currentHeight)
    {
      var root;
      if height in versions {
        root := versions[height].root;
      } else if height in storedRoots {
        root := storedRoots[height];
      } else {
        return false;
      }
      cache, dirty := map[], map[];
      currentRoot, currentHeight := root, height;
      return true;
    }
  }

  // ----- what a revert gives back

  datatype Timed = Timed(block: Block, now: nat)

  /** The accounts after all blocks in order, if all of them succeed. */
  function AfterBlocks(m: Accounts, bs: seq<Timed>): Option<Accounts> {
    if bs == [] then Some(m)
    else
      var last := bs[|bs| - 1];
      match AfterBlocks(m, bs[..|bs| - 1])
      case None => None
      case Some(x) => After(x, last.block.txs, last.now)
  }

  function TxCount(bs: seq<Timed>): nat {
    if bs == [] then 0 else TxCount(bs[..|bs| - 1]) + |bs[|bs| - 1].block.txs|
  }

  function SentIn(bs: seq<Timed>, a: Address): nat {
    if bs == [] then 0 else SentIn(bs[..|bs| - 1], a) + SentBy(bs[|bs| - 1].block.txs, a)
  }

  ghost predicate AllWellFormed(bs: seq<Timed>) {
    forall i, j :: 0 <= i < |bs| && 0 <= j < |bs[i].block.txs| ==> WellFormed(bs[i].block.txs[j])
  }

  lemma {:induction false} BlocksCount(m: Accounts, bs: seq<Timed>, a: Address)
    requires AllWellFormed(bs) && Total(m) <= U128_MAX && NonceOf(m, a) + TxCount(bs) <= U64_MAX
    requires AfterBlocks(m, bs).Some?
    ensures Total(AfterBlocks(m, bs).value) <= U128_MAX
    ensures NonceOf(AfterBlocks(m, bs).value, a) == NonceOf(m, a) + SentIn(bs, a)
    ensures SentIn(bs, a) <= TxCount(bs)
  {
    if bs != [] {
      var n := |bs| - 1;
      BlocksCount(m, bs[..n], a);
      BlockAccounts(AfterBlocks(m, bs[..n]).value, bs[n].block.txs, bs[n].now, a);
    }
  }

  lemma {:induction false} SentInAny(bs: seq<Timed>, i: nat, a: Address)
    requires i < |bs|
    ensures SentBy(bs[i].block.txs, a) <= SentIn(bs, a)
  {
    if i < |bs| - 1 {
      SentInAny(bs[..|bs| - 1], i, a);
    }
  }

  lemma {:induction false} EmptyBlocksChangeNothing(m: Accounts, bs: seq<Timed>)
    requires forall i :: 0 <= i < |bs| ==> bs[i].block.txs == []
    ensures AfterBlocks(m, bs) == Some(m)
  {
    if bs != [] {
      EmptyBlocksChangeNothing(m, bs[..|bs| - 1]);
    }
  }

  /** Well-formed blocks leave the accounts as they were exactly when they hold no transaction at all. */
  lemma BlocksChangeAccounts(m: Accounts, bs: seq<Timed>)
    requires AllWellFormed(bs) && Total(m) <= U128_MAX && AfterBlocks(m, bs).Some?
    requires forall a :: NonceOf(m, a) + TxCount(bs) <= U64_MAX
    ensures AfterBlocks(m, bs).value == m <==> forall i :: 0 <= i < |bs| ==> bs[i].block.txs == []
  {
    if i :| 0 <= i < |bs| && bs[i].block.txs != [] {
      var txs := bs[i].block.txs;
      var sender := txs[|txs| - 1].sender;
      BlocksCount(m, bs, sender);
      SentInAny(bs, i, sender);
    } else {
      EmptyBlocksChangeNothing(m, bs);
    }
  }

  /** Commits blocks on top of a committed height, then reverts to that height. Height and root are the old ones again,
      but the accounts are those after the blocks: they are the old ones exactly when no block held a transaction. */
  method CommitThenRevert(s: StateManager, bs: seq<Timed>) returns (done: bool)
    requires s.Valid() && s.dirty == map[] && s.currentHeight in s.storedRoots
    modifies s
    ensures s.Valid()
    ensures done ==> s.currentHeight == old(s.currentHeight) && s.currentRoot == old(s.storedRoots[s.currentHeight])
                     && AfterBlocks(old(s.Logical()), bs) == Some(s.Logical())
    ensures done && AllWellFormed(bs) && Total(old(s.Logical())) <= U128_MAX
            && (forall a :: NonceOf(old(s.Logical()), a) + TxCount(bs) <= U64_MAX) ==>
              (s.Logical() == old(s.Logical()) <==> forall i :: 0 <= i < |bs| ==> bs[i].block.txs == [])
  {
    var height := s.currentHeight;
    for i := 0 to |bs|
      invariant s.Valid() && s.dirty == map[] && height <= s.currentHeight
      invariant height in s.storedRoots && s.storedRoots[height] == old(s.storedRoots[s.currentHeight])
      invariant AfterBlocks(old(s.Logical()), bs[..i]) == Some(s.Logical())
    {
      assert bs[..i + 1][..i] == bs[..i];
      var res := s.ApplyBlock(bs[i].block, bs[i].now);
      if !res.Committed? {
        return false;
      }
    }
    assert bs[..|bs|] == bs;
    done := s.RevertToHeight(height);
    if AllWellFormed(bs) && Total(old(s.Logical())) <= U128_MAX
       && (forall a :: NonceOf(old(s.Logical()), a) + TxCount(bs) <= U64_MAX) {
      BlocksChangeAccounts(old(s.Logical()), bs);
    }
  }

  /** A run that shows it: height 1 is committed without account 2, height 2 pays it 4 units, and a revert to height 1
      still finds the payment. */
  method PaymentSurvivesRevert(rootOf: Accounts -> Hash)
    returns (before: Option<Account>, after: Option<Account>, height: nat)
    ensures before == None && after.Some? && after.value.balance == 4 && height == 1
  {
    var s := new StateManager(map[1 := NewAccount(10, 0)], map[], 0, rootOf);
    var payment := Tx(1, 2, 4, 1);
    var first := s.ApplyBlock(Block(1, 0, []), 0);
    assert After(map[1 := NewAccount(10, 0)], [], 0) == Some(s.Logical());
    before := s.GetAccount(2);
    assert [payment][..0] == [];
    assert After(s.Logical(), [payment], 0).Some?;
    var second := s.ApplyBlock(Block(2, 0, [payment]), 0);
    assert second.Committed?;
    var ok := s.RevertToHeight(1);
    after := s.GetAccount(2);
    height := s.currentHeight;
  }

  // ----- what a failed block leaves behind

  lemma {:induction false} AfterBoth(m: Accounts, a: seq<Tx>, b: seq<Tx>, now: nat, later: nat, id: Address)
    requires (forall i :: 0 <= i < |a| ==> WellFormed(a[i])) && (forall i :: 0 <= i < |b| ==> WellFormed(b[i]))
    requires Total(m) <= U128_MAX && NonceOf(m, id) + |a| + |b| <= U64_MAX
    requires After(m, a, now).Some? && After(After(m, a, now).value, b, later).Some?
    ensures NonceOf(After(After(m, a, now).value, b, later).value, id) == NonceOf(m, id) + SentBy(a, id) + SentBy(b, id)
  {
    BlockAccounts(m, a, now, id);
    BlockAccounts(After(m, a, now).value, b, later, id);
  }

  /** Transfers applied before others leave a trace: the outcome is that of the others alone only if there were none. */
  lemma LeftoversShow(m: Accounts, a: seq<Tx>, b: seq<Tx>, now: nat, later: nat, result: Accounts)
    requires (forall i :: 0 <= i < |a| ==> WellFormed(a[i])) && (forall i :: 0 <= i < |b| ==> WellFormed(b[i]))
    requires Total(m) <= U128_MAX && forall id :: NonceOf(m, id) + |a| + |b| <= U64_MAX
    requires After(m, a, now).Some? && After(After(m, a, now).value, b, later) == Some(result)
    ensures After(m, b, later) == Some(result) <==> a == []
  {
    if a != [] && After(m, b, later) == Some(result) {
      var sender := a[|a| - 1].sender;
      AfterBoth(m, a, b, now, later, sender);
      BlockAccounts(m, b, later, sender);
    }
  }

  /** A block that fails at transaction k, then one that succeeds at the same height. The failed block's first k
      transfers are committed with the second block: the accounts are those of the second block alone exactly when k is
      zero. */
  method FailThenCommit(s: StateManager, bad: Timed, good: Timed) returns (k: Option<nat>)
    requires s.Valid() && s.dirty == map[]
    modifies s
    ensures s.Valid()
    ensures k.Some? ==> k.value < |bad.block.txs| && s.stored == s.Logical() && s.currentHeight == good.block.height
    ensures k.Some? ==> var m := After(old(s.Logical()), bad.block.txs[..k.value], bad.now);
                        m.Some? && After(m.value, good.block.txs, good.now) == Some(s.stored)
    ensures k.Some? && AllWellFormed([bad, good]) && Total(old(s.Logical())) <= U128_MAX
            && (forall id :: NonceOf(old(s.Logical()), id) + k.value + |good.block.txs| <= U64_MAX) ==>
              (After(old(s.Logical()), good.block.txs, good.now) == Some(s.stored) <==> k.value == 0)
  {
    var first := s.ApplyBlock(bad.block, bad.now);
    if !first.FailedAt? {
      return None;
    }
    ghost var prefix := bad.block.txs[..first.index];
    var second := s.ApplyBlock(good.block, good.now);
    if !second.Committed? {
      return None;
    }
    if AllWellFormed([bad, good]) && Total(old(s.Logical())) <= U128_MAX
       && (forall id :: NonceOf(old(s.Logical()), id) + first.index + |good.block.txs| <= U64_MAX) {
      assert [bad, good][0] == bad && [bad, good][1] == good;
      LeftoversShow(old(s.Logical()), prefix, good.block.txs, bad.now, good.now, s.stored);
    }
    return Some(first.index);
  }

  /** A run that shows it: a block pays account 2 four units and then fails; an empty block at the same height commits
      the payment. */
  method PaymentOfFailedBlock(rootOf: Accounts -> Hash) returns (failed: BlockResult, committed: Option<Account>)
    ensures failed == FailedAt(1, AccountNotFound) && committed.Some? && committed.value.balance == 4
  {
    var start := map[1 := NewAccount(10, 0)];
    var s := new StateManager(start, map[], 0, rootOf);
    var payment, orphan := Tx(1, 2, 4, 1), Tx(3, 2, 1, 1);
    FirstOfTwo(start, payment, orphan);
    failed := s.ApplyBlock(Block(1, 0, [payment, orphan]), 0);
    var second := s.ApplyBlock(Block(1, 0, []), 0);
    committed := Lookup(s.stored, 2);
  }

  lemma FirstOfTwo(m: Accounts, payment: Tx, orphan: Tx)
    requires m == map[1 := NewAccount(10, 0)] && payment == Tx(1, 2, 4, 1) && orphan == Tx(3, 2, 1, 1)
    ensures [payment, orphan][..0] == [] && [payment, orphan][..1] == [payment]
    ensures After(m, [payment], 0).Some? && After(m, [payment], 0).value.Keys == {1, 2}
    ensures After(m, [payment], 0).value[2].balance == 4
    ensures Transfer(m, payment, 0).Ok? && Transfer(After(m, [payment], 0).value, orphan, 0) == Err(AccountNotFound)
    ensures After(m, [payment, orphan], 0) == None
  {
    assert [payment][..0] == [];
    assert After(m, [payment][..0], 0) == Some(m);
    assert [payment, orphan][..1] == [payment];
  }
}
