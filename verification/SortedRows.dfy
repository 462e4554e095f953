/** Rows collected from the entries of a hash map, in whatever order it yields them, then sorted by key. */
module SortedRows {
  import opened Words

  ghost predicate Strictly<T>(key: T -> nat, s: seq<T>) {
    forall i, j :: 0 <= i < j < |s| ==> key(s[i]) < key(s[j])
  }

  ghost predicate DistinctBy<T>(key: T -> nat, s: seq<T>) {
    forall i, j :: 0 <= i < j < |s| ==> key(s[i]) != key(s[j])
  }

  /** `x` is the row of some entry in `dom`. */
  ghost predicate Sourced<T>(source: nat -> Option<T>, dom: set<nat>, x: T) {
    exists a :: a in dom && source(a) == Some(x)
  }

  /** `s` holds exactly the rows of the entries in `dom`. */
  ghost predicate Holds<T(!new)>(s: seq<T>, source: nat -> Option<T>, dom: set<nat>) {
    forall x :: x in s <==> Sourced(source, dom, x)
  }

  ghost predicate Injective(f: nat -> nat) {
    forall x, y :: f(x) == f(y) ==> x == y
  }

  /** Rows are keyed by the hash of the entry they come from. */
  ghost predicate Keyed<T(!new)>(key: T -> nat, source: nat -> Option<T>, hash: nat -> nat) {
    && Injective(hash)
    && forall a :: source(a).Some? ==> key(source(a).value) == hash(a)
  }

  // ----- Sorting -----

  function Insert<T>(key: T -> nat, s: seq<T>, x: T): seq<T> {
    if s == [] || key(x) < key(s[0]) then [x] + s else [s[0]] + Insert(key, s[1..], x)
  }

  lemma {:induction false} InsertHolds<T>(key: T -> nat, s: seq<T>, x: T, y: T)
    ensures y in Insert(key, s, x) <==> y in s || y == x
    decreases |s|
  {
    if !(s == [] || key(x) < key(s[0])) {
      InsertHolds(key, s[1..], x, y);
      assert s == [s[0]] + s[1..];
    }
  }

  lemma {:induction false} InsertStrict<T>(key: T -> nat, s: seq<T>, x: T)
    requires Strictly(key, s) && forall i :: 0 <= i < |s| ==> key(s[i]) != key(x)
    ensures Strictly(key, Insert(key, s, x))
    decreases |s|
  {
    if !(s == [] || key(x) < key(s[0])) {
      var rest := Insert(key, s[1..], x);
      InsertStrict(key, s[1..], x);
      forall i | 0 <= i < |rest| ensures key(s[0]) < key(rest[i]) {
        InsertHolds(key, s[1..], x, rest[i]);
        assert rest[i] in rest;
        if rest[i] != x {
          var j :| 0 <= j < |s[1..]| && s[1..][j] == rest[i];
          assert s[j + 1] == rest[i];
        }
      }
    }
  }

  /** Sorts rows with distinct keys. */
  method SortByKey<T>(key: T -> nat, s: seq<T>) returns (r: seq<T>)
    requires DistinctBy(key, s)
    ensures Strictly(key, r) && forall x :: x in r <==> x in s
  {
    r := [];
    for k := 0 to |s|
      invariant Strictly(key, r) && forall x :: x in r <==> x in s[..k]
    {
      forall i | 0 <= i < |r| ensures key(r[i]) != key(s[k]) {
        assert r[i] in s[..k];
        var j :| 0 <= j < k && s[..k][j] == r[i];
      }
      InsertStrict(key, r, s[k]);
      forall x ensures x in Insert(key, r, s[k]) <==> x in s[..k + 1] {
        InsertHolds(key, r, s[k], x);
        assert s[..k + 1] == s[..k] + [s[k]];
      }
      r := Insert(key, r, s[k]);
    }
    assert s[..|s|] == s;
  }

  lemma EmptyTogether<T>(s: seq<T>, t: seq<T>)
    requires forall x :: x in s <==> x in t
    ensures s == [] <==> t == []
  {
    if s != [] {
      assert s[0] in s;
    }
    if t != [] {
      assert t[0] in t;
    }
  }

  /** A strictly sorted sequence is determined by its elements. */
  lemma {:induction false} SortedUnique<T>(key: T -> nat, s: seq<T>, t: seq<T>)
    requires Strictly(key, s) && Strictly(key, t) && forall x :: x in s <==> x in t
    ensures s == t
    decreases |s|
  {
    EmptyTogether(s, t);
    if s != [] {
      var m, n := |s| - 1, |t| - 1;
      assert s[m] in t;
      var i :| 0 <= i < |t| && t[i] == s[m];
      assert t[n] in s;
      var j :| 0 <= j < |s| && s[j] == t[n];
      assert s[m] == t[n];
      forall x ensures x in s[..m] <==> x in t[..n] {
        InitOf(key, s, x);
        InitOf(key, t, x);
      }
      SortedUnique(key, s[..m], t[..n]);
      assert s == s[..m] + [s[m]] && t == t[..n] + [t[n]];
    }
  }

  lemma InitOf<T>(key: T -> nat, s: seq<T>, x: T)
    requires Strictly(key, s) && s != []
    ensures x in s[..|s| - 1] <==> x in s && x != s[|s| - 1]
  {
    assert s == s[..|s| - 1] + [s[|s| - 1]];
  }

  // ----- The sorted rows of a map -----

  ghost function SortedOf<T>(key: T -> nat, source: nat -> Option<T>, dom: set<nat>): seq<T> {
    if dom == {} then []
    else
      var a :| a in dom;
      var rest := SortedOf(key, source, dom - {a});
      if source(a).Some? then Insert(key, rest, source(a).value) else rest
  }

  lemma {:induction false} SortedOfHolds<T(!new)>(key: T -> nat, source: nat -> Option<T>, dom: set<nat>,
                                           hash: nat -> nat)
    requires Keyed(key, source, hash)
    ensures Strictly(key, SortedOf(key, source, dom)) && Holds(SortedOf(key, source, dom), source, dom)
    decreases dom
  {
    if dom == {} {
      assert forall x :: !Sourced(source, dom, x);
    } else {
      var a :| a in dom && SortedOf(key, source, dom) ==
        var rest := SortedOf(key, source, dom - {a});
        if source(a).Some? then Insert(key, rest, source(a).value) else rest;
      SortedOfHolds(key, source, dom - {a}, hash);
      AddSource(key, SortedOf(key, source, dom - {a}), source, dom - {a}, a, hash);
      assert dom - {a} + {a} == dom;
    }
  }

  /** One more entry in the sorted rows. */
  lemma AddSource<T(!new)>(key: T -> nat, rest: seq<T>, source: nat -> Option<T>, dom: set<nat>, a: nat,
                    hash: nat -> nat)
    requires Keyed(key, source, hash) && Strictly(key, rest) && Holds(rest, source, dom) && a !in dom
    ensures var all := if source(a).Some? then Insert(key, rest, source(a).value) else rest;
      Strictly(key, all) && Holds(all, source, dom + {a})
  {
    if source(a).Some? {
      forall i | 0 <= i < |rest| ensures key(rest[i]) != key(source(a).value) {
        assert rest[i] in rest && Sourced(source, dom, rest[i]);
      }
      InsertStrict(key, rest, source(a).value);
      forall x ensures x in Insert(key, rest, source(a).value) <==> Sourced(source, dom + {a}, x) {
        InsertHolds(key, rest, source(a).value, x);
        SourcedMore(source, dom, a, x);
      }
    } else {
      forall x ensures x in rest <==> Sourced(source, dom + {a}, x) {
        SourcedMore(source, dom, a, x);
      }
    }
  }

  lemma SourcedMore<T>(source: nat -> Option<T>, dom: set<nat>, a: nat, x: T)
    ensures Sourced(source, dom + {a}, x) <==> Sourced(source, dom, x) || source(a) == Some(x)
  {
    if source(a) == Some(x) {
      assert a in dom + {a};
    }
    if Sourced(source, dom, x) {
      var b :| b in dom && source(b) == Some(x);
      assert b in dom + {a};
    }
  }

  /** Rows pushed in any order and sorted are the sorted rows of the map. */
  lemma AnyOrderSorts<T(!new)>(key: T -> nat, r: seq<T>, pushed: seq<T>, source: nat -> Option<T>, dom: set<nat>,
                        hash: nat -> nat)
    requires Keyed(key, source, hash) && Holds(pushed, source, dom)
    requires Strictly(key, r) && forall x :: x in r <==> x in pushed
    ensures r == SortedOf(key, source, dom)
  {
    SortedOfHolds(key, source, dom, hash);
    forall x ensures x in r <==> x in SortedOf(key, source, dom) {
      assert x in pushed <==> Sourced(source, dom, x);
    }
    SortedUnique(key, r, SortedOf(key, source, dom));
  }

  // ----- Collecting rows -----

  /** What has been pushed after visiting the entries in `seen`. */
  ghost predicate Collected<T(!new)>(key: T -> nat, pushed: seq<T>, source: nat -> Option<T>, seen: set<nat>) {
    && Holds(pushed, source, seen)
    && DistinctBy(key, pushed)
  }

  lemma CollectStep<T(!new)>(key: T -> nat, pushed: seq<T>, source: nat -> Option<T>, seen: set<nat>, a: nat,
                      hash: nat -> nat)
    requires Keyed(key, source, hash) && Collected(key, pushed, source, seen) && a !in seen
    ensures Collected(key, pushed + (if source(a).Some? then [source(a).value] else []), source, seen + {a})
  {
    var more := pushed + (if source(a).Some? then [source(a).value] else []);
    forall x ensures x in more <==> Sourced(source, seen + {a}, x) {
      SourcedMore(source, seen, a, x);
      assert x in pushed <==> Sourced(source, seen, x);
    }
    if source(a).Some? {
      forall i | 0 <= i < |pushed| ensures key(pushed[i]) != key(source(a).value) {
        assert pushed[i] in pushed && Sourced(source, seen, pushed[i]);
      }
    }
  }
}
