/** A built diff, decoded, expanded and applied to the parent state, is the bundle's final state
    (crates/rpc/src/debank.rs). */
module DiffRoundTrip {
  import opened Words
  import opened SortedRows
  import opened StateDiff
  import opened DiffDecode

  /** Plain state: accounts, and their non-zero slots. */
  datatype World = World(accounts: map<nat, Info>, storage: map<nat, map<nat, nat>>)
  {
    function Account(a: nat): Option<Info> {
      if a in accounts then Some(accounts[a]) else None
    }

    function Slot(a: nat, key: nat): nat {
      if a in storage && key in storage[a] then storage[a][key] else 0
    }

    /** Only existing accounts have storage. */
    ghost predicate Proper() {
      forall a, key :: a !in accounts ==> Slot(a, key) == 0
    }
  }

  /** Hashed state, as lookups. */
  datatype Hashed = Hashed(account: nat -> Option<Info>, slot: (nat, nat) -> nat)

  ghost predicate AccountAgrees(h: Hashing, account: nat -> Option<Info>, s: Hashed, a: nat) {
    s.account(h.address(a)) == account(a)
  }

  ghost predicate SlotAgrees(h: Hashing, slot: (nat, nat) -> nat, s: Hashed, a: nat, key: nat) {
    s.slot(h.address(a), h.slot(key)) == slot(a, key)
  }

  ghost predicate HashesAddress(h: Hashing, x: nat) {
    exists a :: h.address(a) == x
  }

  ghost predicate HashesSlot(h: Hashing, x: nat, i: nat) {
    exists a, key :: h.address(a) == x && h.slot(key) == i
  }

  /** `s` is the plain state given by `account` and `slot` under hashed keys, and nothing more. */
  ghost predicate IsImage(h: Hashing, account: nat -> Option<Info>, slot: (nat, nat) -> nat, s: Hashed) {
    && (forall a {:trigger AccountAgrees(h, account, s, a)} :: AccountAgrees(h, account, s, a))
    && (forall a, key {:trigger SlotAgrees(h, slot, s, a, key)} :: SlotAgrees(h, slot, s, a, key))
    && (forall x {:trigger HashesAddress(h, x)} :: s.account(x).Some? ==> HashesAddress(h, x))
    && (forall x, i {:trigger HashesSlot(h, x, i)} :: s.slot(x, i) != 0 ==> HashesSlot(h, x, i))
  }

  /** Writing an update over a hashed state: what it names is set, a zero slot is removed. */
  ghost function Apply(s: Hashed, u: HashedPostState): Hashed {
    Hashed(
      (x: nat) => if x in u.accounts then u.accounts[x] else s.account(x),
      (x: nat, i: nat) => SlotAfterUpdate(s, u, x, i))
  }

  ghost function SlotAfterUpdate(s: Hashed, u: HashedPostState, x: nat, i: nat): nat {
    if x in u.storages && i in u.storages[x] then u.storages[x][i] else s.slot(x, i)
  }

  // ----- The bundle's own meaning -----

  /** The account after the block. */
  ghost function FinalAccount(p: World, b: Bundle, a: nat): Option<Info> {
    if a in b.state && !b.state[a].status.IsNotModified() then b.state[a].info else p.Account(a)
  }

  /** The slot after the block: a destroyed account keeps only what it wrote afterwards. */
  ghost function FinalSlot(p: World, b: Bundle, a: nat, key: nat): nat {
    if a !in b.state || b.state[a].status.IsNotModified() then p.Slot(a, key)
    else if b.state[a].info.None? then 0
    else if key in b.state[a].storage then b.state[a].storage[key].present
    else if b.state[a].status.WasDestroyed() then 0
    else p.Slot(a, key)
  }

  /** A modified entry records the parent's account and, unless destroyed, the parent's slots; an
      account disappears only by being destroyed. */
  ghost predicate FitsParent(p: World, a: nat, account: BundleAccount) {
    !account.status.IsNotModified() ==>
      && account.original == p.Account(a)
      && (!account.status.WasDestroyed() ==>
            && (forall key :: key in account.storage ==> account.storage[key].original == p.Slot(a, key))
            && (account.info.None? ==> account.original.None?))
  }

  ghost predicate WellFormed(p: World, b: Bundle) {
    p.Proper() && forall a :: a in b.state ==> FitsParent(p, a, b.state[a])
  }

  // ----- The decoder accepts a built diff -----

  /** What the rows of a built diff are. */
  ghost predicate Describes(h: Hashing, b: Bundle, d: BlockStorageDiff) {
    && Strictly(ACCOUNT_ADDRESS, d.accounts) && Holds(d.accounts, AccountSource(h, b), b.state.Keys)
    && Strictly(SELF, d.deleted) && Holds(d.deleted, DeletedSource(h, b), b.state.Keys)
    && Strictly(STORAGE_ADDRESS, d.storage) && Holds(d.storage, StorageSource(h, b), b.state.Keys)
    && Strictly(CODE_HASH, d.codes) && Holds(d.codes, CodeSource(h, b), b.contracts.Keys)
  }

  lemma DiffDescribes(h: Hashing, b: Bundle)
    requires h.CollisionFree()
    ensures Describes(h, b, DiffOf(h, b))
  {
    AllKeyed(h, b);
    SortedOfHolds(ACCOUNT_ADDRESS, AccountSource(h, b), b.state.Keys, h.address);
    SortedOfHolds(SELF, DeletedSource(h, b), b.state.Keys, h.address);
    SortedOfHolds(STORAGE_ADDRESS, StorageSource(h, b), b.state.Keys, h.address);
    SortedOfHolds(CODE_HASH, CodeSource(h, b), b.contracts.Keys, SELF);
  }

  /** Rows are found under the hash of their entry. */
  lemma RowOfEntry<T(!new)>(key: T -> nat, s: seq<T>, source: nat -> Option<T>, dom: set<nat>, hash: nat -> nat, a: nat)
    requires Keyed(key, source, hash) && Holds(s, source, dom)
    ensures HasKey(key, s, hash(a)) <==> a in dom && source(a).Some?
    ensures a in dom && source(a).Some? ==> source(a).value in s
  {
    if a in dom && source(a).Some? {
      assert Sourced(source, dom, source(a).value);
      assert source(a).value in s;
    }
    if HasKey(key, s, hash(a)) {
      var k :| 0 <= k < |s| && key(s[k]) == hash(a);
      assert s[k] in s && Sourced(source, dom, s[k]);
      var a' :| a' in dom && source(a') == Some(s[k]);
      assert key(source(a').value) == hash(a');
    }
  }

  lemma RowHasEntry<T(!new)>(s: seq<T>, source: nat -> Option<T>, dom: set<nat>, k: nat) returns (a: nat)
    requires Holds(s, source, dom) && k < |s|
    ensures a in dom && source(a) == Some(s[k])
  {
    assert s[k] in s && Sourced(source, dom, s[k]);
    a :| a in dom && source(a) == Some(s[k]);
  }

  lemma SlotRowsDistinct(h: Hashing, account: BundleAccount)
    requires h.CollisionFree()
    ensures DistinctBy(ROW_INDEX, SlotRows(h, account))
  {
    SlotsKeyed(h, account);
    SortedOfHolds(ROW_INDEX, SlotSource(h, account), account.storage.Keys, h.slot);
  }

  /** A storage row comes with its account row. */
  lemma StorageHasAccount(h: Hashing, b: Bundle, d: BlockStorageDiff, k: nat)
    requires h.CollisionFree() && Describes(h, b, d) && k < |d.storage|
    ensures StorageRowOk(d, d.storage[k])
  {
    AllKeyed(h, b);
    var a := RowHasEntry(d.storage, StorageSource(h, b), b.state.Keys, k);
    assert EmitsAccount(b.state[a]);
    RowOfEntry(ACCOUNT_ADDRESS, d.accounts, AccountSource(h, b), b.state.Keys, h.address, a);
    SlotRowsDistinct(h, b.state[a]);
  }

  /** A code row is referenced by an account row and hashes to its name. */
  lemma CodeIsReferenced(h: Hashing, b: Bundle, d: BlockStorageDiff, k: nat)
    requires h.CollisionFree() && Describes(h, b, d) && CodesAvailable(h, b) && k < |d.codes|
    ensures CodeRowOk(h, d, d.codes[k])
  {
    AllKeyed(h, b);
    var codeHash := RowHasEntry(d.codes, CodeSource(h, b), b.contracts.Keys, k);
    assert Required(h, b, codeHash);
    var a :| a in b.state && RequiredCode(h, b.state[a]) == Some(codeHash);
    assert EmitsAccount(b.state[a]);
    RowOfEntry(ACCOUNT_ADDRESS, d.accounts, AccountSource(h, b), b.state.Keys, h.address, a);
    var row := AccountSource(h, b)(a).value;
    assert row in d.accounts;
    var j :| 0 <= j < |d.accounts| && d.accounts[j] == row;
  }

  /** The strict decoder accepts every diff the builder makes. */
  lemma BuiltIsStrict(h: Hashing, b: Bundle)
    requires h.CollisionFree() && CodesAvailable(h, b)
    ensures Strict(h, DiffOf(h, b))
  {
    var d := DiffOf(h, b);
    DiffDescribes(h, b);
    forall k | 0 <= k < |d.storage| ensures StorageRowOk(d, d.storage[k]) {
      StorageHasAccount(h, b, d, k);
    }
    forall k | 0 <= k < |d.codes| ensures CodeRowOk(h, d, d.codes[k]) {
      CodeIsReferenced(h, b, d, k);
    }
  }

  // ----- Expanding wipes -----

  datatype WipeError = MissingPreimage

  ghost predicate Sets(u: HashedPostState, x: nat, i: nat) {
    x in u.storages && i in u.storages[x]
  }

  ghost predicate ParentSlot(h: Hashing, p: World, x: nat, i: nat) {
    exists a, key :: a in p.storage && key in p.storage[a] && h.address(a) == x && h.slot(key) == i
  }

  /** Every parent slot of a deleted account is zeroed, then the decoded update is laid over it. */
  ghost predicate Expands(h: Hashing, p: World, d: BlockStorageDiff, u: HashedPostState, m: HashedPostState) {
    && (forall x :: x in m.accounts <==> x in u.accounts || x in d.deleted)
    && (forall x :: x in m.accounts ==> m.accounts[x] == if x in u.accounts then u.accounts[x] else None)
    && (forall x, i :: Sets(m, x, i) <==> Sets(u, x, i) || (x in d.deleted && ParentSlot(h, p, x, i)))
    && (forall x, i :: Sets(m, x, i) ==> m.storages[x][i] == if Sets(u, x, i) then u.storages[x][i] else 0)
  }

  ghost predicate HasPreimage(h: Hashing, b: Bundle, x: nat) {
    exists a :: a in b.state && h.address(a) == x
  }

  function ZeroSlots(h: Hashing, p: World, a: nat): map<nat, nat> {
    if a in p.storage then map key | key in p.storage[a] :: h.slot(key) := 0 else map[]
  }

  /** Zeroes for the accounts deleted so far. */
  ghost predicate Zeroed(h: Hashing, p: World, deleted: seq<nat>, base: map<nat, map<nat, nat>>) {
    && (forall x :: x in base <==> x in deleted)
    && (forall x, i :: x in base ==> (i in base[x] <==> ParentSlot(h, p, x, i)))
    && (forall x, i :: x in base && i in base[x] ==> base[x][i] == 0)
  }

  lemma ZeroesParent(h: Hashing, p: World, a: nat, i: nat)
    requires h.CollisionFree()
    ensures i in ZeroSlots(h, p, a) <==> ParentSlot(h, p, h.address(a), i)
  {
    if i in ZeroSlots(h, p, a) {
      var key :| key in p.storage[a] && h.slot(key) == i;
    }
  }

  lemma ZeroedStep(h: Hashing, p: World, deleted: seq<nat>, base: map<nat, map<nat, nat>>, a: nat)
    requires h.CollisionFree() && Zeroed(h, p, deleted, base)
    ensures Zeroed(h, p, deleted + [h.address(a)], base[h.address(a) := ZeroSlots(h, p, a)])
  {
    forall i ensures i in ZeroSlots(h, p, a) <==> ParentSlot(h, p, h.address(a), i) {
      ZeroesParent(h, p, a, i);
    }
  }

  /** The address behind a hashed key, searched among the bundle's accounts. */
  method FindPreimage(h: Hashing, b: Bundle, x: nat) returns (found: Option<nat>)
    ensures found.Some? <==> HasPreimage(h, b, x)
    ensures found.Some? ==> h.address(found.value) == x
  {
    var left := b.state.Keys;
    while left != {}
      invariant left <= b.state.Keys && forall a :: a in b.state && a !in left ==> h.address(a) != x
      decreases left
    {
      var a :| a in left;
      if h.address(a) == x {
        return Some(a);
      }
      left := left - {a};
    }
    found := None;
  }

  /** Fails exactly when a deleted key has no preimage in the bundle. */
  method MaterializeStorageWipes(h: Hashing, p: World, b: Bundle, d: BlockStorageDiff, u: HashedPostState)
    returns (r: Result<HashedPostState, WipeError>)
    requires h.CollisionFree()
    ensures r.Ok? <==> forall x :: x in d.deleted ==> HasPreimage(h, b, x)
    ensures r.Ok? ==> Expands(h, p, d, u, r.value)
  {
    if d.deleted == [] {
      return Ok(u);
    }
    var base: map<nat, map<nat, nat>> := map[];
    for k := 0 to |d.deleted|
      invariant Zeroed(h, p, d.deleted[..k], base)
      invariant forall j :: 0 <= j < k ==> HasPreimage(h, b, d.deleted[j])
    {
      var a := FindPreimage(h, b, d.deleted[k]);
      if a.None? {
        assert d.deleted[k] in d.deleted;
        return Err(MissingPreimage);
      }
      ZeroedStep(h, p, d.deleted[..k], base, a.value);
      assert d.deleted[..k + 1] == d.deleted[..k] + [d.deleted[k]];
      base := base[d.deleted[k] := ZeroSlots(h, p, a.value)];
    }
    assert d.deleted[..|d.deleted|] == d.deleted;
    var m := Overlay(base, u);
    OverlayExpands(h, p, d, u, base);
    r := Ok(m);
  }

  function Overlay(base: map<nat, map<nat, nat>>, u: HashedPostState): HashedPostState {
    HashedPostState(
      (map x | x in base :: None) + u.accounts,
      map x | x in base.Keys + u.storages.Keys ::
        (if x in base then base[x] else map[]) + (if x in u.storages then u.storages[x] else map[]))
  }

  lemma OverlayExpands(h: Hashing, p: World, d: BlockStorageDiff, u: HashedPostState, base: map<nat, map<nat, nat>>)
    requires Zeroed(h, p, d.deleted, base)
    ensures Expands(h, p, d, u, Overlay(base, u))
  {
    var m := Overlay(base, u);
    forall x, i ensures Sets(m, x, i) <==> Sets(u, x, i) || (x in d.deleted && ParentSlot(h, p, x, i)) {
    }
  }

  // ----- Applying the expanded update -----

  /** What the decoded update says about an address. */
  lemma DecodedAccountAt(h: Hashing, b: Bundle, u: HashedPostState, a: nat)
    requires h.CollisionFree() && DecodedAccounts(DiffOf(h, b), u.accounts)
    ensures var x := h.address(a);
      && (x in DiffOf(h, b).deleted <==> a in b.state && EmitsDeletion(b.state[a]))
      && (x in u.accounts <==> a in b.state && (EmitsAccount(b.state[a]) || EmitsDeletion(b.state[a])))
      && (x in u.accounts ==> u.accounts[x] == if EmitsAccount(b.state[a]) then b.state[a].info else None)
  {
    var d, x := DiffOf(h, b), h.address(a);
    DiffDescribes(h, b);
    AllKeyed(h, b);
    RowOfEntry(ACCOUNT_ADDRESS, d.accounts, AccountSource(h, b), b.state.Keys, h.address, a);
    RowOfEntry(SELF, d.deleted, DeletedSource(h, b), b.state.Keys, h.address, a);
    SelfKey(d.deleted, x);
    if a in b.state && EmitsAccount(b.state[a]) {
      var row := AccountSource(h, b)(a).value;
      var k :| 0 <= k < |d.accounts| && d.accounts[k] == row;
      assert d.accounts[k].address == x;
    }
  }

  lemma SelfKey(s: seq<nat>, x: nat)
    ensures HasKey(SELF, s, x) <==> x in s
  {
    if x in s {
      var k :| 0 <= k < |s| && s[k] == x;
      assert SELF(s[k]) == x;
    }
  }

  /** What the decoded update says about a slot. */
  lemma DecodedSlotAt(h: Hashing, b: Bundle, u: HashedPostState, a: nat, key: nat)
    requires h.CollisionFree() && DecodedStorages(DiffOf(h, b), u.storages)
    ensures var x, i := h.address(a), h.slot(key);
      && (Sets(u, x, i) <==> a in b.state && Counts(b.state[a]) && SlotCounts(b.state[a], key))
      && (Sets(u, x, i) ==> u.storages[x][i] == b.state[a].storage[key].present)
  {
    var d, x, i := DiffOf(h, b), h.address(a), h.slot(key);
    DiffDescribes(h, b);
    AllKeyed(h, b);
    RowOfEntry(STORAGE_ADDRESS, d.storage, StorageSource(h, b), b.state.Keys, h.address, a);
    if a in b.state && EmitsStorage(b.state[a]) {
      StoredUnder(h, b, u, a);
      SlotRowAt(h, b.state[a], u.storages[x], key);
    }
  }

  /** The slots decoded for an address are those of its row. */
  lemma StoredUnder(h: Hashing, b: Bundle, u: HashedPostState, a: nat)
    requires h.CollisionFree() && DecodedStorages(DiffOf(h, b), u.storages) && a in b.state && EmitsStorage(b.state[a])
    ensures h.address(a) in u.storages && SlotsOf(StorageRow(0, SlotRows(h, b.state[a])), u.storages[h.address(a)])
  {
    var d := DiffOf(h, b);
    DiffDescribes(h, b);
    AllKeyed(h, b);
    RowOfEntry(STORAGE_ADDRESS, d.storage, StorageSource(h, b), b.state.Keys, h.address, a);
    var row := StorageSource(h, b)(a).value;
    var k :| 0 <= k < |d.storage| && d.storage[k] == row;
    assert StoredRow(d.storage[k], u.storages);
  }

  lemma SlotRowAt(h: Hashing, account: BundleAccount, slots: map<nat, nat>, key: nat)
    requires h.CollisionFree() && SlotsOf(StorageRow(0, SlotRows(h, account)), slots)
    ensures h.slot(key) in slots <==> SlotCounts(account, key)
    ensures SlotCounts(account, key) ==> slots[h.slot(key)] == account.storage[key].present
  {
    SlotsKeyed(h, account);
    var rows, source := SlotRows(h, account), SlotSource(h, account);
    SortedOfHolds(ROW_INDEX, source, account.storage.Keys, h.slot);
    RowOfEntry(ROW_INDEX, rows, source, account.storage.Keys, h.slot, key);
    if SlotCounts(account, key) {
      var k :| 0 <= k < |rows| && rows[k] == source(key).value;
    }
  }

  lemma AccountAfter(h: Hashing, p: World, b: Bundle, s: Hashed, u: HashedPostState, m: HashedPostState, a: nat)
    requires h.CollisionFree() && WellFormed(p, b) && s.account(h.address(a)) == p.Account(a)
    requires DecodedAccounts(DiffOf(h, b), u.accounts) && Expands(h, p, DiffOf(h, b), u, m)
    ensures Apply(s, m).account(h.address(a)) == FinalAccount(p, b, a)
  {
    DecodedAccountAt(h, b, u, a);
    if a in b.state {
      assert FitsParent(p, a, b.state[a]);
    }
  }

  lemma SlotAfter(h: Hashing, p: World, b: Bundle, s: Hashed, u: HashedPostState, m: HashedPostState, a: nat, key: nat)
    requires h.CollisionFree() && WellFormed(p, b) && s.slot(h.address(a), h.slot(key)) == p.Slot(a, key)
    requires DecodedAccounts(DiffOf(h, b), u.accounts) && DecodedStorages(DiffOf(h, b), u.storages)
    requires Expands(h, p, DiffOf(h, b), u, m)
    ensures Apply(s, m).slot(h.address(a), h.slot(key)) == FinalSlot(p, b, a, key)
  {
    ExpandedSlot(h, p, DiffOf(h, b), s, u, m, a, key);
    DecodedAccountAt(h, b, u, a);
    DecodedSlotAt(h, b, u, a, key);
    SlotCases(p, b, a, key);
  }

  /** What the expanded update makes of a slot: the decoded value, else zero for a deleted account. */
  lemma ExpandedSlot(h: Hashing, p: World, d: BlockStorageDiff, s: Hashed, u: HashedPostState, m: HashedPostState,
                     a: nat, key: nat)
    requires h.CollisionFree() && Expands(h, p, d, u, m)
    ensures var x, i := h.address(a), h.slot(key);
      Apply(s, m).slot(x, i) ==
        if Sets(u, x, i) then u.storages[x][i]
        else if x in d.deleted && a in p.storage && key in p.storage[a] then 0
        else s.slot(x, i)
  {
    var x, i := h.address(a), h.slot(key);
    assert ParentSlot(h, p, x, i) <==> a in p.storage && key in p.storage[a];
    assert Apply(s, m).slot(x, i) == if Sets(m, x, i) then m.storages[x][i] else s.slot(x, i);
  }

  /** The slot after the block, by what the diff says about it. */
  lemma SlotCases(p: World, b: Bundle, a: nat, key: nat)
    requires WellFormed(p, b)
    ensures FinalSlot(p, b, a, key) ==
      if a in b.state && Counts(b.state[a]) && SlotCounts(b.state[a], key) then b.state[a].storage[key].present
      else if a in b.state && EmitsDeletion(b.state[a]) then 0
      else p.Slot(a, key)
  {
    if a in b.state {
      assert FitsParent(p, a, b.state[a]);
    }
  }

  /** An update never sets an account under a key that is not the hash of an address. */
  lemma AccountInImage(h: Hashing, p: World, b: Bundle, u: HashedPostState, m: HashedPostState, x: nat)
    requires h.CollisionFree() && Expands(h, p, DiffOf(h, b), u, m) && DecodedAccounts(DiffOf(h, b), u.accounts)
    requires x in m.accounts && m.accounts[x].Some?
    ensures HashesAddress(h, x)
  {
    var d := DiffOf(h, b);
    DiffDescribes(h, b);
    assert HasAccount(d, x);
    var k :| 0 <= k < |d.accounts| && ACCOUNT_ADDRESS(d.accounts[k]) == x;
    var a := RowHasEntry(d.accounts, AccountSource(h, b), b.state.Keys, k);
    assert h.address(a) == x;
  }

  lemma RowInImage(h: Hashing, b: Bundle, u: HashedPostState, x: nat, i: nat)
    requires h.CollisionFree() && DecodedStorages(DiffOf(h, b), u.storages) && Sets(u, x, i)
    ensures HashesSlot(h, x, i)
  {
    var d := DiffOf(h, b);
    DiffDescribes(h, b);
    assert HasKey(STORAGE_ADDRESS, d.storage, x);
    var k :| 0 <= k < |d.storage| && STORAGE_ADDRESS(d.storage[k]) == x;
    assert StoredRow(d.storage[k], u.storages);
    var a := RowHasEntry(d.storage, StorageSource(h, b), b.state.Keys, k);
    SlotInImage(h, b.state[a], u.storages[x], i);
    var key :| h.slot(key) == i;
    assert h.address(a) == x;
  }

  lemma SlotInImage(h: Hashing, account: BundleAccount, slots: map<nat, nat>, i: nat)
    requires h.CollisionFree() && SlotsOf(StorageRow(0, SlotRows(h, account)), slots) && i in slots
    ensures exists key :: h.slot(key) == i
  {
    SlotsKeyed(h, account);
    var rows, source := SlotRows(h, account), SlotSource(h, account);
    SortedOfHolds(ROW_INDEX, source, account.storage.Keys, h.slot);
    var k :| 0 <= k < |rows| && ROW_INDEX(rows[k]) == i;
    var key := RowHasEntry(rows, source, account.storage.Keys, k);
    assert h.slot(key) == i;
  }

  ghost function AccountsOf(p: World): nat -> Option<Info> {
    (a: nat) => p.Account(a)
  }

  ghost function SlotsIn(p: World): (nat, nat) -> nat {
    (a: nat, key: nat) => p.Slot(a, key)
  }

  ghost function FinalAccounts(p: World, b: Bundle): nat -> Option<Info> {
    (a: nat) => FinalAccount(p, b, a)
  }

  ghost function FinalSlots(p: World, b: Bundle): (nat, nat) -> nat {
    (a: nat, key: nat) => FinalSlot(p, b, a, key)
  }

  ghost predicate ImageOfParent(h: Hashing, p: World, s: Hashed) {
    IsImage(h, AccountsOf(p), SlotsIn(p), s)
  }

  ghost predicate ImageOfFinal(h: Hashing, p: World, b: Bundle, s: Hashed) {
    IsImage(h, FinalAccounts(p, b), FinalSlots(p, b), s)
  }

  /** The decoded update `u` of a bundle's diff, and what it expands to over the parent. */
  ghost predicate Updates(h: Hashing, p: World, b: Bundle, u: HashedPostState, m: HashedPostState) {
    && DecodedAccounts(DiffOf(h, b), u.accounts) && DecodedStorages(DiffOf(h, b), u.storages)
    && Expands(h, p, DiffOf(h, b), u, m)
  }

  /** The applied update has no account outside the hashes of addresses. */
  lemma NoOtherAccount(h: Hashing, p: World, b: Bundle, s: Hashed, u: HashedPostState, m: HashedPostState, x: nat)
    requires h.CollisionFree() && (s.account(x).Some? ==> HashesAddress(h, x)) && Updates(h, p, b, u, m)
    ensures Apply(s, m).account(x).Some? ==> HashesAddress(h, x)
  {
    if x in m.accounts && m.accounts[x].Some? {
      AccountInImage(h, p, b, u, m, x);
    }
  }

  /** The applied update has no slot outside the hashes of addresses and storage keys. */
  lemma NoOtherSlot(h: Hashing, p: World, b: Bundle, s: Hashed, u: HashedPostState, m: HashedPostState, x: nat, i: nat)
    requires h.CollisionFree() && (s.slot(x, i) != 0 ==> HashesSlot(h, x, i)) && Updates(h, p, b, u, m)
    ensures Apply(s, m).slot(x, i) != 0 ==> HashesSlot(h, x, i)
  {
    if Sets(u, x, i) {
      RowInImage(h, b, u, x, i);
    } else {
      assert Apply(s, m).slot(x, i) != 0 ==> Apply(s, m).slot(x, i) == s.slot(x, i);
    }
  }

  lemma AccountIsFinal(h: Hashing, p: World, b: Bundle, s: Hashed, u: HashedPostState, m: HashedPostState, a: nat)
    requires h.CollisionFree() && WellFormed(p, b) && AccountAgrees(h, AccountsOf(p), s, a) && Updates(h, p, b, u, m)
    ensures AccountAgrees(h, FinalAccounts(p, b), Apply(s, m), a)
  {
    AccountAfter(h, p, b, s, u, m, a);
  }

  lemma SlotIsFinal(h: Hashing, p: World, b: Bundle, s: Hashed, u: HashedPostState, m: HashedPostState,
                    a: nat, key: nat)
    requires h.CollisionFree() && WellFormed(p, b) && SlotAgrees(h, SlotsIn(p), s, a, key) && Updates(h, p, b, u, m)
    ensures SlotAgrees(h, FinalSlots(p, b), Apply(s, m), a, key)
  {
    SlotAfter(h, p, b, s, u, m, a, key);
  }

  /** Decoded, expanded and applied, the diff of a bundle turns the parent's hashed state into the final one. */
  lemma DiffReproducesState(h: Hashing, p: World, b: Bundle, s: Hashed, u: HashedPostState, m: HashedPostState)
    requires h.CollisionFree() && WellFormed(p, b) && ImageOfParent(h, p, s) && Updates(h, p, b, u, m)
    ensures ImageOfFinal(h, p, b, Apply(s, m))
  {
    var t := Apply(s, m);
    forall a ensures AccountAgrees(h, FinalAccounts(p, b), t, a) {
      assert AccountAgrees(h, AccountsOf(p), s, a);
      AccountIsFinal(h, p, b, s, u, m, a);
    }
    forall a, key ensures SlotAgrees(h, FinalSlots(p, b), t, a, key) {
      assert SlotAgrees(h, SlotsIn(p), s, a, key);
      SlotIsFinal(h, p, b, s, u, m, a, key);
    }
    forall x | t.account(x).Some? ensures HashesAddress(h, x) {
      NoOtherAccount(h, p, b, s, u, m, x);
    }
    forall x, i | t.slot(x, i) != 0 ensures HashesSlot(h, x, i) {
      NoOtherSlot(h, p, b, s, u, m, x, i);
    }
  }

  lemma DeletionsHavePreimages(h: Hashing, b: Bundle)
    requires h.CollisionFree()
    ensures forall x :: x in DiffOf(h, b).deleted ==> HasPreimage(h, b, x)
  {
    DiffDescribes(h, b);
    var d := DiffOf(h, b);
    forall x | x in d.deleted ensures HasPreimage(h, b, x) {
      var k :| 0 <= k < |d.deleted| && d.deleted[k] == x;
      var a := RowHasEntry(d.deleted, DeletedSource(h, b), b.state.Keys, k);
    }
  }

  /** The whole path: build, decode, expand. It fails only for missing or wrong bytecode, and its
      update takes every image of the parent to the image of the final state. */
  method RoundTrip(h: Hashing, p: World, b: Bundle) returns (r: Option<HashedPostState>)
    requires h.CollisionFree() && WellFormed(p, b)
    ensures r.Some? <==> CodesAvailable(h, b)
    ensures r.Some? ==> forall s :: ImageOfParent(h, p, s) ==> ImageOfFinal(h, p, b, Apply(s, r.value))
  {
    var built := BuildStorageDiff(h, b);
    if built.Err? {
      return None;
    }
    var d := built.value;
    BuiltIsStrict(h, b);
    var decoded := DecodeStorageDiff(h, d);
    DeletionsHavePreimages(h, b);
    var expanded := MaterializeStorageWipes(h, p, b, d, decoded.value);
    forall s | ImageOfParent(h, p, s) ensures ImageOfFinal(h, p, b, Apply(s, expanded.value)) {
      DiffReproducesState(h, p, b, s, decoded.value, expanded.value);
    }
    r := Some(expanded.value);
  }

  /** A final account's code is either in the diff, hashing to its name, or already referenced by
      the same account in the parent state, which was not destroyed. */
  lemma CodeIsAvailable(h: Hashing, p: World, b: Bundle, a: nat)
    requires h.CollisionFree() && WellFormed(p, b) && CodesAvailable(h, b)
    requires FinalAccount(p, b, a).Some? && FinalAccount(p, b, a).value.codeHash != h.EmptyCode()
    ensures var codeHash := FinalAccount(p, b, a).value.codeHash;
      || (!(a in b.state && b.state[a].status.WasDestroyed()) && p.Account(a).Some? &&
        p.Account(a).value.codeHash == codeHash)
      || (exists k :: 0 <= k < |DiffOf(h, b).codes| &&
            DiffOf(h, b).codes[k].codeHash == codeHash == h.code(DiffOf(h, b).codes[k].code))
  {
    var codeHash := FinalAccount(p, b, a).value.codeHash;
    if a in b.state && !b.state[a].status.IsNotModified() {
      assert FitsParent(p, a, b.state[a]);
      if RequiredCode(h, b.state[a]).Some? {
        assert Required(h, b, codeHash);
        var k := CodeRow(h, b, codeHash);
      }
    }
  }

  lemma CodeRow(h: Hashing, b: Bundle, codeHash: nat) returns (k: nat)
    requires h.CollisionFree() && Required(h, b, codeHash) && codeHash in b.contracts
    ensures k < |DiffOf(h, b).codes| && DiffOf(h, b).codes[k] == NewCode(codeHash, b.contracts[codeHash])
  {
    var d := DiffOf(h, b);
    DiffDescribes(h, b);
    AllKeyed(h, b);
    RowOfEntry(CODE_HASH, d.codes, CodeSource(h, b), b.contracts.Keys, SELF, codeHash);
    k :| k < |d.codes| && d.codes[k] == CodeSource(h, b)(codeHash).value;
  }

  /** Nothing idle is written: an account row that is neither a recreation nor accompanied by
      changed slots differs from the parent's account, and a slot row either differs from the parent's
      slot or, after a wipe, holds a value other than zero. */
  lemma RowsAreNeeded(p: World, b: Bundle, a: nat)
    requires WellFormed(p, b) && a in b.state && EmitsAccount(b.state[a])
    ensures
      || b.state[a].status.WasDestroyed()
      || FinalAccount(p, b, a) != p.Account(a)
      || exists key :: FinalSlot(p, b, a, key) != p.Slot(a, key)
    ensures forall key :: SlotCounts(b.state[a], key) ==>
      if b.state[a].status.WasDestroyed() then FinalSlot(p, b, a, key) != 0
      else FinalSlot(p, b, a, key) != p.Slot(a, key)
  {
    assert FitsParent(p, a, b.state[a]);
    if AnySlot(b.state[a]) {
      var key :| SlotCounts(b.state[a], key);
      assert b.state[a].status.WasDestroyed() || FinalSlot(p, b, a, key) != p.Slot(a, key);
    }
  }
}
