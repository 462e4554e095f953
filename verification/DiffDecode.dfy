/** The strict decoder of a state diff and the expansion of storage wipes (crates/rpc/src/debank.rs,
    `decode_storage_diff_exact`, `materialize_storage_wipes`). */
module DiffDecode {
  import opened Words
  import opened SortedRows
  import opened StateDiff

  /** An update of hashed state: accounts set or removed, slots set (zero removes). */
  datatype HashedPostState = HashedPostState(accounts: map<nat, Option<Info>>, storages: map<nat, map<nat, nat>>)

  datatype DecodeError =
    | DuplicateAccount
    | DuplicateDeleted
    | MissingAccount
    | DuplicateSlot
    | DuplicateStorage
    | WrongCodeHash
    | DuplicateCode
    | OrphanCode

  // ----- Rows by key -----

  /** `m` finds each row of `s` under its key, and nothing else. */
  ghost predicate Indexes<T>(key: T -> nat, s: seq<T>, m: map<nat, T>) {
    && (forall k :: 0 <= k < |s| ==> key(s[k]) in m && m[key(s[k])] == s[k])
    && (forall x :: x in m ==> m[x] in s && key(m[x]) == x)
  }

  /** Inserts row after row; a key met twice is refused. */
  method IndexRows<T>(key: T -> nat, s: seq<T>) returns (m: Option<map<nat, T>>)
    ensures m.Some? <==> DistinctBy(key, s)
    ensures m.Some? ==> Indexes(key, s, m.value)
  {
    var found: map<nat, T> := map[];
    for k := 0 to |s|
      invariant DistinctBy(key, s[..k]) && Indexes(key, s[..k], found)
    {
      assert forall x :: x in found ==> found[x] in s[..k];
      if key(s[k]) in found {
        ghost var j :| 0 <= j < k && s[..k][j] == found[key(s[k])];
        assert key(s[j]) == key(s[k]);
        return None;
      }
      forall j | 0 <= j < k ensures key(s[j]) != key(s[k]) {
        assert s[..k][j] == s[j];
      }
      found := found[key(s[k]) := s[k]];
    }
    assert s[..|s|] == s;
    m := Some(found);
  }

  /** Whether some row has key `x`. */
  ghost predicate HasKey<T>(key: T -> nat, s: seq<T>, x: nat) {
    exists k :: 0 <= k < |s| && key(s[k]) == x
  }

  lemma IndexedKeys<T>(key: T -> nat, s: seq<T>, m: map<nat, T>, x: nat)
    requires Indexes(key, s, m)
    ensures x in m <==> HasKey(key, s, x)
  {
    if x in m {
      var k :| 0 <= k < |s| && s[k] == m[x];
    }
  }

  /** One more row: which keys there are, and whether they are still distinct. */
  lemma HasKeySnoc<T>(key: T -> nat, s: seq<T>, n: nat, x: nat)
    requires n < |s|
    ensures HasKey(key, s[..n + 1], x) <==> HasKey(key, s[..n], x) || key(s[n]) == x
  {
    if HasKey(key, s[..n], x) {
      var k :| 0 <= k < n && key(s[..n][k]) == x;
      assert key(s[..n + 1][k]) == x;
    }
    if key(s[n]) == x {
      assert key(s[..n + 1][n]) == x;
    }
    if HasKey(key, s[..n + 1], x) && key(s[n]) != x {
      var k :| 0 <= k < n + 1 && key(s[..n + 1][k]) == x;
      assert key(s[..n][k]) == x;
    }
  }

  lemma DistinctSnoc<T>(key: T -> nat, s: seq<T>, n: nat)
    requires n < |s| && DistinctBy(key, s[..n]) && !HasKey(key, s[..n], key(s[n]))
    ensures DistinctBy(key, s[..n + 1])
  {
    var more := s[..n + 1];
    forall i, j | 0 <= i < j < |more| ensures key(more[i]) != key(more[j]) {
      assert more[i] == s[..n][i];
      if j < n {
        assert more[j] == s[..n][j];
      } else {
        assert key(s[..n][i]) != key(s[n]);
      }
    }
  }

  // ----- What the strict decoder accepts -----

  ghost predicate HasAccount(d: BlockStorageDiff, x: nat) {
    HasKey(ACCOUNT_ADDRESS, d.accounts, x)
  }

  ghost predicate References(d: BlockStorageDiff, codeHash: nat) {
    exists k :: 0 <= k < |d.accounts| && d.accounts[k].info.codeHash == codeHash
  }

  ghost predicate StorageRowOk(d: BlockStorageDiff, row: StorageRow) {
    HasAccount(d, row.address) && DistinctBy(ROW_INDEX, row.diffs)
  }

  ghost predicate CodeRowOk(h: Hashing, d: BlockStorageDiff, row: NewCode) {
    h.code(row.code) == row.codeHash && References(d, row.codeHash)
  }

  /** No key twice, no storage without its account, no code that is wrong or unreferenced. */
  ghost predicate Strict(h: Hashing, d: BlockStorageDiff) {
    && DistinctBy(ACCOUNT_ADDRESS, d.accounts) && DistinctBy(SELF, d.deleted)
    && DistinctBy(STORAGE_ADDRESS, d.storage) && DistinctBy(CODE_HASH, d.codes)
    && (forall k :: 0 <= k < |d.storage| ==> StorageRowOk(d, d.storage[k]))
    && (forall k :: 0 <= k < |d.codes| ==> CodeRowOk(h, d, d.codes[k]))
  }

  /** The row's slots are found under its address. */
  ghost predicate StoredRow(row: StorageRow, storages: map<nat, map<nat, nat>>) {
    row.address in storages && SlotsOf(row, storages[row.address])
  }

  ghost predicate SlotsOf(row: StorageRow, slots: map<nat, nat>) {
    && (forall k :: 0 <= k < |row.diffs| ==>
      row.diffs[k].index in slots && slots[row.diffs[k].index] == row.diffs[k].value)
    && (forall i :: i in slots ==> HasKey(ROW_INDEX, row.diffs, i))
  }

  ghost predicate DecodedAccounts(d: BlockStorageDiff, accounts: map<nat, Option<Info>>) {
    && (forall k :: 0 <= k < |d.accounts| ==>
          d.accounts[k].address in accounts && accounts[d.accounts[k].address] == Some(d.accounts[k].info))
    && (forall x :: x in accounts <==> HasAccount(d, x) || x in d.deleted)
    && (forall x :: x in accounts && !HasAccount(d, x) ==> accounts[x] == None)
  }

  ghost predicate DecodedStorages(d: BlockStorageDiff, storages: map<nat, map<nat, nat>>) {
    && (forall k {:trigger StoredRow(d.storage[k], storages)} ::
          0 <= k < |d.storage| ==> StoredRow(d.storage[k], storages))
    && (forall x :: x in storages <==> HasKey(STORAGE_ADDRESS, d.storage, x) || x in d.deleted)
    && (forall x :: x in storages && !HasKey(STORAGE_ADDRESS, d.storage, x) ==> storages[x] == map[])
  }

  // ----- The decoder -----

  method DecodeSlots(row: StorageRow) returns (slots: Option<map<nat, nat>>)
    ensures slots.Some? <==> DistinctBy(ROW_INDEX, row.diffs)
    ensures slots.Some? ==> SlotsOf(row, slots.value)
  {
    var rows := IndexRows(ROW_INDEX, row.diffs);
    if rows.None? {
      return None;
    }
    var m := rows.value;
    forall i | i in m ensures HasKey(ROW_INDEX, row.diffs, i) {
      IndexedKeys(ROW_INDEX, row.diffs, m, i);
    }
    slots := Some(map i | i in m :: m[i].value);
  }

  /** Storage rows decoded so far. */
  ghost predicate RowsDecoded(d: BlockStorageDiff, n: nat, storages: map<nat, map<nat, nat>>)
    requires n <= |d.storage|
  {
    && DistinctBy(STORAGE_ADDRESS, d.storage[..n])
    && (forall k {:trigger StorageRowOk(d, d.storage[k])} :: 0 <= k < n ==> StorageRowOk(d, d.storage[k]))
    && (forall k {:trigger StoredRow(d.storage[k], storages)} :: 0 <= k < n ==> StoredRow(d.storage[k], storages))
    && (forall x :: x in storages ==> HasKey(STORAGE_ADDRESS, d.storage[..n], x))
  }

  method DecodeStorage(d: BlockStorageDiff, accounts: map<nat, NewAccount>)
    returns (r: Result<map<nat, map<nat, nat>>, DecodeError>)
    requires Indexes(ACCOUNT_ADDRESS, d.accounts, accounts)
    ensures r.Ok? <==> DistinctBy(STORAGE_ADDRESS, d.storage) && forall k :: 0 <= k < |d.storage| ==>
      StorageRowOk(d, d.storage[k])
    ensures r.Ok? ==> RowsDecoded(d, |d.storage|, r.value)
  {
    var storages: map<nat, map<nat, nat>> := map[];
    for n := 0 to |d.storage|
      invariant RowsDecoded(d, n, storages)
    {
      var row := d.storage[n];
      IndexedKeys(ACCOUNT_ADDRESS, d.accounts, accounts, row.address);
      if row.address !in accounts {
        return Err(MissingAccount);
      }
      var slots := DecodeSlots(row);
      if slots.None? {
        return Err(DuplicateSlot);
      }
      if row.address in storages {
        RepeatedRow(d, n);
        return Err(DuplicateStorage);
      }
      NextRow(d, n, storages, slots.value);
      storages := storages[row.address := slots.value];
    }
    assert d.storage[..|d.storage|] == d.storage;
    r := Ok(storages);
  }

  lemma RepeatedRow(d: BlockStorageDiff, n: nat)
    requires n < |d.storage| && HasKey(STORAGE_ADDRESS, d.storage[..n], d.storage[n].address)
    ensures !DistinctBy(STORAGE_ADDRESS, d.storage)
  {
    var j :| 0 <= j < n && STORAGE_ADDRESS(d.storage[..n][j]) == d.storage[n].address;
    assert STORAGE_ADDRESS(d.storage[j]) == STORAGE_ADDRESS(d.storage[n]);
  }

  lemma NextRow(d: BlockStorageDiff, n: nat, storages: map<nat, map<nat, nat>>, slots: map<nat, nat>)
    requires n < |d.storage| && RowsDecoded(d, n, storages) && d.storage[n].address !in storages
    requires StorageRowOk(d, d.storage[n]) && SlotsOf(d.storage[n], slots)
    ensures RowsDecoded(d, n + 1, storages[d.storage[n].address := slots])
  {
    var rows, more := d.storage, storages[d.storage[n].address := slots];
    RowIsNew(d, n, storages);
    DistinctSnoc(STORAGE_ADDRESS, rows, n);
    forall k | 0 <= k < n + 1 ensures StoredRow(rows[k], more) {
      if k < n {
        assert StoredRow(rows[k], storages);
      }
    }
    forall x | x in more ensures HasKey(STORAGE_ADDRESS, rows[..n + 1], x) {
      HasKeySnoc(STORAGE_ADDRESS, rows, n, x);
    }
  }

  lemma RowIsNew(d: BlockStorageDiff, n: nat, storages: map<nat, map<nat, nat>>)
    requires n < |d.storage| && RowsDecoded(d, n, storages) && d.storage[n].address !in storages
    ensures !HasKey(STORAGE_ADDRESS, d.storage[..n], STORAGE_ADDRESS(d.storage[n]))
  {
    forall k | 0 <= k < n ensures STORAGE_ADDRESS(d.storage[..n][k]) != d.storage[n].address {
      assert StoredRow(d.storage[k], storages);
    }
  }

  method CheckCodes(h: Hashing, d: BlockStorageDiff) returns (error: Option<DecodeError>)
    ensures error.None? <==> DistinctBy(CODE_HASH, d.codes) && forall k :: 0 <= k < |d.codes| ==>
      CodeRowOk(h, d, d.codes[k])
  {
    var seen: set<nat> := {};
    for n := 0 to |d.codes|
      invariant DistinctBy(CODE_HASH, d.codes[..n])
      invariant forall k :: 0 <= k < n ==> CodeRowOk(h, d, d.codes[k])
      invariant forall x :: x in seen <==> HasKey(CODE_HASH, d.codes[..n], x)
    {
      var row := d.codes[n];
      if h.code(row.code) != row.codeHash {
        assert !CodeRowOk(h, d, d.codes[n]);
        return Some(WrongCodeHash);
      }
      if row.codeHash in seen {
        ghost var j :| 0 <= j < n && CODE_HASH(d.codes[..n][j]) == row.codeHash;
        assert CODE_HASH(d.codes[j]) == CODE_HASH(d.codes[n]);
        return Some(DuplicateCode);
      }
      var referenced := exists k :: 0 <= k < |d.accounts| && d.accounts[k].info.codeHash == row.codeHash;
      if !referenced {
        assert !CodeRowOk(h, d, d.codes[n]);
        return Some(OrphanCode);
      }
      SeenCode(d, n);
      seen := seen + {row.codeHash};
    }
    assert d.codes[..|d.codes|] == d.codes;
    error := None;
  }

  lemma SeenCode(d: BlockStorageDiff, n: nat)
    requires n < |d.codes| && DistinctBy(CODE_HASH, d.codes[..n]) &&
      !HasKey(CODE_HASH, d.codes[..n], d.codes[n].codeHash)
    ensures DistinctBy(CODE_HASH, d.codes[..n + 1])
    ensures forall x :: HasKey(CODE_HASH, d.codes[..n + 1], x) <==>
      HasKey(CODE_HASH, d.codes[..n], x) || x == d.codes[n].codeHash
  {
    DistinctSnoc(CODE_HASH, d.codes, n);
    forall x ensures HasKey(CODE_HASH, d.codes[..n + 1], x) <==>
      HasKey(CODE_HASH, d.codes[..n], x) || x == d.codes[n].codeHash
    {
      HasKeySnoc(CODE_HASH, d.codes, n, x);
    }
  }

  /** Accepts exactly the strict diffs and turns them into a hashed update. */
  method DecodeStorageDiff(h: Hashing, d: BlockStorageDiff) returns (r: Result<HashedPostState, DecodeError>)
    ensures r.Ok? <==> Strict(h, d)
    ensures r.Ok? ==> DecodedAccounts(d, r.value.accounts) && DecodedStorages(d, r.value.storages)
  {
    var accounts := IndexRows(ACCOUNT_ADDRESS, d.accounts);
    if accounts.None? {
      return Err(DuplicateAccount);
    }
    var deleted := IndexRows(SELF, d.deleted);
    if deleted.None? {
      return Err(DuplicateDeleted);
    }
    var storages := DecodeStorage(d, accounts.value);
    if storages.Err? {
      return Err(storages.error);
    }
    var codes := CheckCodes(h, d);
    if codes.Some? {
      return Err(codes.value);
    }
    var hashedAccounts := JoinAccounts(d, accounts.value, deleted.value);
    var hashedStorages := JoinStorages(d, storages.value, deleted.value);
    r := Ok(HashedPostState(hashedAccounts, hashedStorages));
  }

  method JoinAccounts(d: BlockStorageDiff, accounts: map<nat, NewAccount>, deleted: map<nat, nat>)
    returns (all: map<nat, Option<Info>>)
    requires Indexes(ACCOUNT_ADDRESS, d.accounts, accounts) && Indexes(SELF, d.deleted, deleted)
    ensures DecodedAccounts(d, all)
  {
    all := map x | x in accounts.Keys + deleted.Keys :: if x in accounts then Some(accounts[x].info) else None;
    forall x ensures x in accounts <==> HasAccount(d, x) {
      IndexedKeys(ACCOUNT_ADDRESS, d.accounts, accounts, x);
    }
    DeletedKeys(d, deleted);
  }

  lemma DeletedKeys(d: BlockStorageDiff, deleted: map<nat, nat>)
    requires Indexes(SELF, d.deleted, deleted)
    ensures forall x :: x in deleted <==> x in d.deleted
  {
    forall x ensures x in deleted <==> x in d.deleted {
      if x in d.deleted {
        var k :| 0 <= k < |d.deleted| && d.deleted[k] == x;
        assert SELF(d.deleted[k]) in deleted;
      }
    }
  }

  method JoinStorages(d: BlockStorageDiff, storages: map<nat, map<nat, nat>>, deleted: map<nat, nat>)
    returns (all: map<nat, map<nat, nat>>)
    requires RowsDecoded(d, |d.storage|, storages) && Indexes(SELF, d.deleted, deleted)
    ensures DecodedStorages(d, all)
  {
    all := map x | x in storages.Keys + deleted.Keys :: if x in storages then storages[x] else map[];
    assert d.storage[..|d.storage|] == d.storage;
    DeletedKeys(d, deleted);
    forall k | 0 <= k < |d.storage| ensures StoredRow(d.storage[k], all) {
      assert StoredRow(d.storage[k], storages);
    }
    forall x ensures x in storages <==> HasKey(STORAGE_ADDRESS, d.storage, x) {
      if HasKey(STORAGE_ADDRESS, d.storage, x) {
        var k :| 0 <= k < |d.storage| && STORAGE_ADDRESS(d.storage[k]) == x;
        assert StoredRow(d.storage[k], storages);
      }
    }
  }
}
