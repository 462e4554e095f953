/** The block state diff (crates/rpc/src/debank.rs, `build_storage_diff`): what a replay bundle
    changes relative to its parent state, as rows sorted by hashed key. */
module StateDiff {
  import opened Words
  import opened SortedRows

  datatype Info = Info(balance: nat, nonce: nat, codeHash: nat)

  datatype Status =
    | LoadedNotExisting | Loaded | LoadedEmptyEIP161
    | InMemoryChange | Changed
    | Destroyed | DestroyedChanged | DestroyedAgain
  {
    predicate IsNotModified() {
      LoadedNotExisting? || Loaded? || LoadedEmptyEIP161?
    }

    predicate WasDestroyed() {
      Destroyed? || DestroyedChanged? || DestroyedAgain?
    }
  }

  datatype SlotChange = SlotChange(original: nat, present: nat)

  datatype BundleAccount = BundleAccount(info: Option<Info>, original: Option<Info>, storage: map<nat, SlotChange>,
                                         status: Status)

  type Code = seq<nat>

  datatype Bundle = Bundle(state: map<nat, BundleAccount>, contracts: map<nat, Code>)

  /** The digests of addresses, storage keys and bytecode. */
  datatype Hashing = Hashing(address: nat -> nat, slot: nat -> nat, code: Code -> nat)
  {
    ghost predicate CollisionFree() {
      Injective(address) && Injective(slot)
    }

    function EmptyCode(): nat {
      code([])
    }
  }

  datatype NewAccount = NewAccount(address: nat, info: Info)

  datatype SlotRow = SlotRow(index: nat, value: nat)

  datatype StorageRow = StorageRow(address: nat, diffs: seq<SlotRow>)

  datatype NewCode = NewCode(codeHash: nat, code: Code)

  datatype BlockStorageDiff = BlockStorageDiff(accounts: seq<NewAccount>, deleted: seq<nat>, storage: seq<StorageRow>,
                                               codes: seq<NewCode>)

  datatype DiffError = MissingCode | WrongCode

  // ----- What each bundle account contributes -----

  /** Entries that take part at all: modified, and not created and destroyed within the block. */
  predicate Counts(account: BundleAccount) {
    && !account.status.IsNotModified()
    && !(account.status.WasDestroyed() && account.original.None? && account.info.None?)
  }

  /** Slots written out: every non-zero one after a wipe, otherwise the changed ones. */
  predicate SlotCounts(account: BundleAccount, key: nat) {
    && account.info.Some? && key in account.storage
    && if account.status.WasDestroyed() then account.storage[key].present != 0
       else account.storage[key].original != account.storage[key].present
  }

  ghost predicate AnySlot(account: BundleAccount) {
    exists key :: SlotCounts(account, key)
  }

  ghost predicate EmitsAccount(account: BundleAccount) {
    Counts(account) && account.info.Some? &&
    (account.info != account.original || account.status.WasDestroyed() || AnySlot(account))
  }

  predicate EmitsDeletion(account: BundleAccount) {
    Counts(account) && account.status.WasDestroyed()
  }

  ghost predicate EmitsStorage(account: BundleAccount) {
    Counts(account) && (AnySlot(account) || (account.status.WasDestroyed() && account.info.Some?))
  }

  /** The final account's code that its undestroyed parent does not already reference. */
  function RequiredCode(h: Hashing, account: BundleAccount): Option<nat> {
    if Counts(account) && account.info.Some? && account.info.value.codeHash != h.EmptyCode() &&
       !(!account.status.WasDestroyed() && account.original.Some? &&
         account.original.value.codeHash == account.info.value.codeHash)
    then Some(account.info.value.codeHash) else None
  }

  // ----- Rows as functions of the entry -----

  const ROW_INDEX: SlotRow -> nat := (row: SlotRow) => row.index
  const ACCOUNT_ADDRESS: NewAccount -> nat := (row: NewAccount) => row.address
  const STORAGE_ADDRESS: StorageRow -> nat := (row: StorageRow) => row.address
  const CODE_HASH: NewCode -> nat := (row: NewCode) => row.codeHash
  const SELF: nat -> nat := x => x

  ghost function SlotSource(h: Hashing, account: BundleAccount): nat -> Option<SlotRow> {
    (key: nat) => if SlotCounts(account, key) then Some(SlotRow(h.slot(key), account.storage[key].present)) else None
  }

  ghost function SlotRows(h: Hashing, account: BundleAccount): seq<SlotRow> {
    SortedOf(ROW_INDEX, SlotSource(h, account), account.storage.Keys)
  }

  ghost function AccountSource(h: Hashing, b: Bundle): nat -> Option<NewAccount> {
    (a: nat) =>
      if a in b.state && EmitsAccount(b.state[a]) then Some(NewAccount(h.address(a), b.state[a].info.value)) else None
  }

  ghost function DeletedSource(h: Hashing, b: Bundle): nat -> Option<nat> {
    (a: nat) => if a in b.state && EmitsDeletion(b.state[a]) then Some(h.address(a)) else None
  }

  ghost function StorageSource(h: Hashing, b: Bundle): nat -> Option<StorageRow> {
    (a: nat) =>
      if a in b.state && EmitsStorage(b.state[a]) then Some(StorageRow(h.address(a), SlotRows(h, b.state[a]))) else None
  }

  ghost predicate Required(h: Hashing, b: Bundle, codeHash: nat) {
    exists a :: a in b.state && RequiredCode(h, b.state[a]) == Some(codeHash)
  }

  ghost function CodeSource(h: Hashing, b: Bundle): nat -> Option<NewCode> {
    (codeHash: nat) =>
      if Required(h, b, codeHash) && codeHash in b.contracts then Some(NewCode(codeHash, b.contracts[codeHash]))
      else None
  }

  /** The diff of a bundle: a function of its entries, whatever order they are visited in. */
  ghost function DiffOf(h: Hashing, b: Bundle): BlockStorageDiff {
    BlockStorageDiff(
      SortedOf(ACCOUNT_ADDRESS, AccountSource(h, b), b.state.Keys),
      SortedOf(SELF, DeletedSource(h, b), b.state.Keys),
      SortedOf(STORAGE_ADDRESS, StorageSource(h, b), b.state.Keys),
      SortedOf(CODE_HASH, CodeSource(h, b), b.contracts.Keys))
  }

  /** Every required code is in the bundle and hashes to its name. */
  ghost predicate CodesAvailable(h: Hashing, b: Bundle) {
    forall codeHash :: Required(h, b, codeHash) ==> codeHash in b.contracts && h.code(b.contracts[codeHash]) == codeHash
  }

  lemma AllKeyed(h: Hashing, b: Bundle)
    requires h.CollisionFree()
    ensures Keyed(ACCOUNT_ADDRESS, AccountSource(h, b), h.address) && Keyed(SELF, DeletedSource(h, b), h.address)
    ensures Keyed(STORAGE_ADDRESS, StorageSource(h, b), h.address)
    ensures Keyed(CODE_HASH, CodeSource(h, b), SELF)
  {
  }

  lemma SlotsKeyed(h: Hashing, account: BundleAccount)
    requires h.CollisionFree()
    ensures Keyed(ROW_INDEX, SlotSource(h, account), h.slot)
  {
  }

  // ----- Building the diff -----

  /** The changed slots of one account, sorted by hashed key. */
  method CollectSlots(h: Hashing, account: BundleAccount) returns (slots: seq<SlotRow>)
    requires h.CollisionFree()
    ensures slots == SlotRows(h, account)
    ensures slots != [] <==> AnySlot(account)
  {
    SlotsKeyed(h, account);
    ghost var source := SlotSource(h, account);
    var left, pushed := account.storage.Keys, [];
    ghost var seen: set<nat> := {};
    assert Collected(ROW_INDEX, pushed, source, seen);
    while left != {}
      invariant seen !! left && seen + left == account.storage.Keys
      invariant Collected(ROW_INDEX, pushed, source, seen)
      decreases left
    {
      var key :| key in left;
      CollectStep(ROW_INDEX, pushed, source, seen, key, h.slot);
      if SlotCounts(account, key) {
        pushed := pushed + [SlotRow(h.slot(key), account.storage[key].present)];
      }
      left, seen := left - {key}, seen + {key};
    }
    assert seen == account.storage.Keys;
    slots := SortByKey(ROW_INDEX, pushed);
    AnyOrderSorts(ROW_INDEX, slots, pushed, source, account.storage.Keys, h.slot);
    SomeSlotIffAny(h, account);
  }

  lemma SomeSlotIffAny(h: Hashing, account: BundleAccount)
    requires h.CollisionFree()
    ensures SlotRows(h, account) != [] <==> AnySlot(account)
  {
    SlotsKeyed(h, account);
    var source, rows := SlotSource(h, account), SlotRows(h, account);
    SortedOfHolds(ROW_INDEX, source, account.storage.Keys, h.slot);
    if rows != [] {
      assert rows[0] in rows && Sourced(source, account.storage.Keys, rows[0]);
    }
    if AnySlot(account) {
      var key :| SlotCounts(account, key);
      assert source(key).Some? && Sourced(source, account.storage.Keys, source(key).value);
      assert source(key).value in rows;
    }
  }

  /** The rows one account adds to the diff. */
  datatype Contribution = Contribution(account: Option<NewAccount>, deleted: Option<nat>, storage: Option<StorageRow>,
                                       code: Option<nat>)

  method Contribute(h: Hashing, b: Bundle, a: nat) returns (c: Contribution)
    requires h.CollisionFree() && a in b.state
    ensures c == Contribution(AccountSource(h, b)(a), DeletedSource(h, b)(a), StorageSource(h, b)(a),
      RequiredCode(h, b.state[a]))
  {
    var account := b.state[a];
    c := Contribution(None, None, None, None);
    if account.status.IsNotModified() {
      return;
    }
    var wasDestroyed := account.status.WasDestroyed();
    if wasDestroyed && account.original.None? && account.info.None? {
      return;
    }
    var hashed := h.address(a);
    if wasDestroyed {
      c := c.(deleted := Some(hashed));
    }
    var slots := CollectSlots(h, account);
    if account.info.Some? {
      var info := account.info.value;
      if account.info != account.original || wasDestroyed || slots != [] {
        c := c.(account := Some(NewAccount(hashed, info)));
      }
      var parentProvesCode := !wasDestroyed && account.original.Some? &&
        account.original.value.codeHash == info.codeHash;
      if info.codeHash != h.EmptyCode() && !parentProvesCode {
        c := c.(code := Some(info.codeHash));
      }
    }
    if slots != [] || (wasDestroyed && account.info.Some?) {
      c := c.(storage := Some(StorageRow(hashed, slots)));
    }
  }

  /** Rows collected from the accounts in `seen`. */
  datatype Rows = Rows(accounts: seq<NewAccount>, deleted: seq<nat>, storage: seq<StorageRow>, required: set<nat>)

  ghost predicate RequiredFrom(h: Hashing, b: Bundle, seen: set<nat>, codeHash: nat) {
    exists a :: a in seen && a in b.state && RequiredCode(h, b.state[a]) == Some(codeHash)
  }

  ghost predicate Gathered(h: Hashing, b: Bundle, seen: set<nat>, rows: Rows) {
    && Collected(ACCOUNT_ADDRESS, rows.accounts, AccountSource(h, b), seen)
    && Collected(SELF, rows.deleted, DeletedSource(h, b), seen)
    && Collected(STORAGE_ADDRESS, rows.storage, StorageSource(h, b), seen)
    && (forall codeHash :: codeHash in rows.required <==> RequiredFrom(h, b, seen, codeHash))
  }

  function Push<T>(s: seq<T>, x: Option<T>): seq<T> {
    s + if x.Some? then [x.value] else []
  }

  function AddRows(rows: Rows, c: Contribution): Rows {
    Rows(Push(rows.accounts, c.account), Push(rows.deleted, c.deleted), Push(rows.storage, c.storage),
         rows.required + if c.code.Some? then {c.code.value} else {})
  }

  lemma GatherStep(h: Hashing, b: Bundle, seen: set<nat>, rows: Rows, a: nat)
    requires h.CollisionFree() && Gathered(h, b, seen, rows) && a !in seen && a in b.state
    ensures Gathered(h, b, seen + {a}, AddRows(rows,
      Contribution(AccountSource(h, b)(a), DeletedSource(h, b)(a), StorageSource(h, b)(a),
        RequiredCode(h, b.state[a]))))
  {
    AllKeyed(h, b);
    CollectStep(ACCOUNT_ADDRESS, rows.accounts, AccountSource(h, b), seen, a, h.address);
    CollectStep(SELF, rows.deleted, DeletedSource(h, b), seen, a, h.address);
    CollectStep(STORAGE_ADDRESS, rows.storage, StorageSource(h, b), seen, a, h.address);
    RequiredStep(h, b, seen, rows.required, a);
  }

  lemma RequiredStep(h: Hashing, b: Bundle, seen: set<nat>, required: set<nat>, a: nat)
    requires a in b.state && forall codeHash :: codeHash in required <==> RequiredFrom(h, b, seen, codeHash)
    ensures var more := required + (var c := RequiredCode(h, b.state[a]); if c.Some? then {c.value} else {});
      forall codeHash :: codeHash in more <==> RequiredFrom(h, b, seen + {a}, codeHash)
  {
    var c := RequiredCode(h, b.state[a]);
    var more := required + if c.Some? then {c.value} else {};
    forall codeHash: nat ensures codeHash in more <==> RequiredFrom(h, b, seen + {a}, codeHash) {
      if codeHash in required {
        var d :| d in seen && d in b.state && RequiredCode(h, b.state[d]) == Some(codeHash);
        assert d in seen + {a};
      } else if c == Some(codeHash) {
        assert a in seen + {a};
      }
    }
  }

  /** The code rows for the required hashes, or an error if one is missing or wrong. */
  method CollectCodes(h: Hashing, b: Bundle, required: set<nat>) returns (r: Result<seq<NewCode>, DiffError>)
    requires h.CollisionFree() && forall codeHash :: codeHash in required <==> Required(h, b, codeHash)
    ensures r.Ok? <==> CodesAvailable(h, b)
    ensures r.Ok? ==> r.value == SortedOf(CODE_HASH, CodeSource(h, b), b.contracts.Keys)
  {
    var left, pushed := required, [];
    ghost var seen: set<nat> := {};
    while left != {}
      invariant seen !! left && seen + left == required && seen <= b.contracts.Keys
      invariant Collected(CODE_HASH, pushed, CodeSource(h, b), seen)
      invariant forall codeHash :: codeHash in seen ==> h.code(b.contracts[codeHash]) == codeHash
      decreases left
    {
      var codeHash :| codeHash in left;
      if codeHash !in b.contracts {
        return Err(MissingCode);
      }
      if h.code(b.contracts[codeHash]) != codeHash {
        return Err(WrongCode);
      }
      CollectCode(h, b, seen, pushed, codeHash);
      pushed := pushed + [NewCode(codeHash, b.contracts[codeHash])];
      left, seen := left - {codeHash}, seen + {codeHash};
    }
    assert seen == required;
    var codes := SortByKey(CODE_HASH, pushed);
    CodesCollected(h, b, required, pushed, codes);
    r := Ok(codes);
  }

  lemma CollectCode(h: Hashing, b: Bundle, seen: set<nat>, pushed: seq<NewCode>, codeHash: nat)
    requires h.CollisionFree() && Collected(CODE_HASH, pushed, CodeSource(h, b), seen) && codeHash !in seen
    requires Required(h, b, codeHash) && codeHash in b.contracts
    ensures Collected(CODE_HASH, pushed + [NewCode(codeHash, b.contracts[codeHash])], CodeSource(h, b),
                      seen + {codeHash})
  {
    AllKeyed(h, b);
    CollectStep(CODE_HASH, pushed, CodeSource(h, b), seen, codeHash, SELF);
  }

  lemma CodesCollected(h: Hashing, b: Bundle, required: set<nat>, pushed: seq<NewCode>, codes: seq<NewCode>)
    requires h.CollisionFree() && required <= b.contracts.Keys
    requires forall codeHash :: codeHash in required <==> Required(h, b, codeHash)
    requires Collected(CODE_HASH, pushed, CodeSource(h, b), required)
    requires Strictly(CODE_HASH, codes) && forall x :: x in codes <==> x in pushed
    ensures codes == SortedOf(CODE_HASH, CodeSource(h, b), b.contracts.Keys)
  {
    var source := CodeSource(h, b);
    AllKeyed(h, b);
    forall x ensures Sourced(source, required, x) <==> Sourced(source, b.contracts.Keys, x) {
    }
    AnyOrderSorts(CODE_HASH, codes, pushed, source, b.contracts.Keys, SELF);
  }

  /** Builds the diff, visiting accounts and slots in any order. */
  method BuildStorageDiff(h: Hashing, b: Bundle) returns (r: Result<BlockStorageDiff, DiffError>)
    requires h.CollisionFree()
    ensures r.Ok? <==> CodesAvailable(h, b)
    ensures r.Ok? ==> r.value == DiffOf(h, b)
  {
    var left, rows := b.state.Keys, Rows([], [], [], {});
    ghost var seen: set<nat> := {};
    while left != {}
      invariant seen !! left && seen + left == b.state.Keys
      invariant Gathered(h, b, seen, rows)
      decreases left
    {
      var a :| a in left;
      GatherStep(h, b, seen, rows, a);
      var c := Contribute(h, b, a);
      rows := AddRows(rows, c);
      left, seen := left - {a}, seen + {a};
    }
    assert seen == b.state.Keys;
    assert forall codeHash :: RequiredFrom(h, b, seen, codeHash) <==> Required(h, b, codeHash);
    var codes := CollectCodes(h, b, rows.required);
    if codes.Err? {
      return Err(codes.error);
    }
    var accounts := SortByKey(ACCOUNT_ADDRESS, rows.accounts);
    var deleted := SortByKey(SELF, rows.deleted);
    var storage := SortByKey(STORAGE_ADDRESS, rows.storage);
    AllKeyed(h, b);
    AnyOrderSorts(ACCOUNT_ADDRESS, accounts, rows.accounts, AccountSource(h, b), b.state.Keys, h.address);
    AnyOrderSorts(SELF, deleted, rows.deleted, DeletedSource(h, b), b.state.Keys, h.address);
    AnyOrderSorts(STORAGE_ADDRESS, storage, rows.storage, StorageSource(h, b), b.state.Keys, h.address);
    r := Ok(BlockStorageDiff(accounts, deleted, storage, codes.value));
  }
}
