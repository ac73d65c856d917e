/**
  The two-sided index of blocked clients: each client's dictionary of keys with
  the list node it holds, each key's list of waiting clients, and for each key
  the number of waiters that want to be woken when the key goes away.
  Keys stand for a database and a key in it.
  */
module BlockedIndex {
  import opened Basics

  type Client = nat

  /** A node of a waiter list; `id` is its identity. */
  datatype Node = Node(id: nat, client: Client)

  /**
    `entries` holds every client's bstate.keys: the client, the key, and the
    identity of the node. `waiters` is blocking_keys, `counts` is
    blocking_keys_unblock_on_nokey, and `nextId` is an identity not used yet.
    */
  datatype Index<K> = Index(entries: map<(Client, K), nat>, waiters: map<K, seq<Node>>, counts: map<K, nat>, nextId: nat)

  // ---- lists ----

  function Without(nodes: seq<Node>, id: nat): seq<Node> {
    if nodes == [] then []
    else if nodes[0].id == id then Without(nodes[1..], id)
    else [nodes[0]] + Without(nodes[1..], id)
  }

  /** The waiters that have the flag. */
  function Flagged(nodes: seq<Node>, noKey: set<Client>): nat {
    if nodes == [] then 0 else Count(nodes[0].client in noKey) + Flagged(nodes[1..], noKey)
  }

  predicate DistinctIds(nodes: seq<Node>) {
    forall i, j :: 0 <= i < j < |nodes| ==> nodes[i].id != nodes[j].id
  }

  lemma {:induction false} FlaggedAppend(a: seq<Node>, b: seq<Node>, noKey: set<Client>)
    ensures Flagged(a + b, noKey) == Flagged(a, noKey) + Flagged(b, noKey)
    decreases |a|
  {
    if a == [] {
      assert a + b == b;
    } else {
      assert (a + b)[1..] == a[1..] + b;
      FlaggedAppend(a[1..], b, noKey);
    }
  }

  lemma {:induction false} WithoutMembers(nodes: seq<Node>, id: nat, n: Node)
    ensures n in Without(nodes, id) <==> n in nodes && n.id != id
    decreases |nodes|
  {
    if nodes != [] {
      WithoutMembers(nodes[1..], id, n);
      assert nodes == [nodes[0]] + nodes[1..];
    }
  }

  lemma {:induction false} WithoutAbsent(nodes: seq<Node>, id: nat)
    requires forall i :: 0 <= i < |nodes| ==> nodes[i].id != id
    ensures Without(nodes, id) == nodes
    decreases |nodes|
  {
    if nodes != [] {
      WithoutAbsent(nodes[1..], id);
    }
  }

  /** Removing a node keeps the order of the others. */
  lemma {:induction false} WithoutAt(nodes: seq<Node>, i: nat)
    requires i < |nodes| && DistinctIds(nodes)
    ensures Without(nodes, nodes[i].id) == nodes[..i] + nodes[i + 1..]
    decreases |nodes|
  {
    if i == 0 {
      WithoutAbsent(nodes[1..], nodes[0].id);
      assert nodes[..0] + nodes[1..] == nodes[1..];
    } else {
      WithoutAt(nodes[1..], i - 1);
      assert nodes[..i] + nodes[i + 1..] == [nodes[0]] + (nodes[1..][..i - 1] + nodes[1..][i..]);
    }
  }

  lemma WithoutFlagged(nodes: seq<Node>, i: nat, noKey: set<Client>)
    requires i < |nodes| && DistinctIds(nodes)
    ensures Flagged(nodes, noKey) == Flagged(Without(nodes, nodes[i].id), noKey) + Count(nodes[i].client in noKey)
  {
    WithoutAt(nodes, i);
    assert nodes == nodes[..i] + ([nodes[i]] + nodes[i + 1..]);
    FlaggedAppend(nodes[..i], [nodes[i]] + nodes[i + 1..], noKey);
    FlaggedAppend([nodes[i]], nodes[i + 1..], noKey);
    FlaggedAppend(nodes[..i], nodes[i + 1..], noKey);
    assert [nodes[i]][1..] == [];
  }

  lemma {:induction false} FlaggedSame(nodes: seq<Node>, noKey: set<Client>, other: set<Client>)
    requires forall i :: 0 <= i < |nodes| ==> (nodes[i].client in noKey <==> nodes[i].client in other)
    ensures Flagged(nodes, noKey) == Flagged(nodes, other)
    decreases |nodes|
  {
    if nodes != [] {
      FlaggedSame(nodes[1..], noKey, other);
    }
  }

  // ---- the invariant ----

  /** The lists agree with the dictionaries, node by node. */
  ghost predicate ListOk<K(!new)>(x: Index<K>, k: K)
    requires k in x.waiters
  {
    var nodes := x.waiters[k];
    && nodes != [] && DistinctIds(nodes)
    && forall i :: 0 <= i < |nodes| ==>
         (nodes[i].client, k) in x.entries && x.entries[(nodes[i].client, k)] == nodes[i].id < x.nextId
  }

  ghost predicate EntryOk<K(!new)>(x: Index<K>, c: Client, k: K)
    requires (c, k) in x.entries
  {
    k in x.waiters && Node(x.entries[(c, k)], c) in x.waiters[k]
  }

  function Waiting<K>(x: Index<K>, k: K): seq<Node> { if k in x.waiters then x.waiters[k] else [] }

  function CountOf<K>(x: Index<K>, k: K): nat { if k in x.counts then x.counts[k] else 0 }

  ghost predicate CountOk<K(!new)>(x: Index<K>, noKey: set<Client>, k: K) {
    CountOf(x, k) == Flagged(Waiting(x, k), noKey) && (k in x.counts ==> x.counts[k] > 0)
  }

  ghost predicate IndexOk<K(!new)>(x: Index<K>, noKey: set<Client>) {
    && (forall k <- x.waiters :: ListOk(x, k))
    && (forall c: Client, k: K :: (c, k) in x.entries ==> EntryOk(x, c, k))
    && (forall k: K :: CountOk(x, noKey, k))
  }

  ghost predicate At(nodes: seq<Node>, c: Client, i: int) { 0 <= i < |nodes| && nodes[i].client == c }

  /** Only these clients wait for something. */
  ghost predicate Owned<K(!new)>(x: Index<K>, clients: set<Client>) {
    forall c: Client, k: K :: (c, k) in x.entries ==> c in clients
  }

  /**
    In a valid index a client has a key in its dictionary exactly when it
    occurs once in the key's list, at the recorded node.
    */
  lemma OnceAtTheNode<K(!new)>(x: Index<K>, noKey: set<Client>, c: Client, k: K)
    requires IndexOk(x, noKey)
    ensures (c, k) in x.entries <==> exists i :: At(Waiting(x, k), c, i)
    ensures forall i, j :: At(Waiting(x, k), c, i) && At(Waiting(x, k), c, j) ==> i == j
    ensures forall i :: At(Waiting(x, k), c, i) ==> (c, k) in x.entries && Waiting(x, k)[i].id == x.entries[(c, k)]
  {
    hide Flagged;
    if (c, k) in x.entries {
      var i := Position(x, noKey, c, k);
      assert At(Waiting(x, k), c, i);
    }
    assert k in x.waiters ==> ListOk(x, k);
  }

  lemma Position<K(!new)>(x: Index<K>, noKey: set<Client>, c: Client, k: K) returns (i: nat)
    requires IndexOk(x, noKey) && (c, k) in x.entries
    ensures k in x.waiters && i < |x.waiters[k]| && x.waiters[k][i] == Node(x.entries[(c, k)], c) && ListOk(x, k)
  {
    assert EntryOk(x, c, k);
    i :| 0 <= i < |x.waiters[k]| && x.waiters[k][i] == Node(x.entries[(c, k)], c);
  }

  // ---- adding ----

  /** One key of blockForKeys. */
  function Added<K>(x: Index<K>, c: Client, k: K, flag: bool): Index<K> {
    if (c, k) in x.entries then x
    else
      Index(x.entries[(c, k) := x.nextId], x.waiters[k := Waiting(x, k) + [Node(x.nextId, c)]],
            if flag then x.counts[k := CountOf(x, k) + 1] else x.counts, x.nextId + 1)
  }

  lemma AddKeeps<K(!new)>(x: Index<K>, noKey: set<Client>, c: Client, k: K, flag: bool)
    requires IndexOk(x, noKey) && (flag <==> c in noKey)
    ensures IndexOk(Added(x, c, k, flag), noKey)
  {
    if (c, k) !in x.entries {
      var y := Added(x, c, k, flag);
      AddLists(x, noKey, c, k, flag);
      AddCounts(x, noKey, c, k, flag);
      hide Flagged, ListOk;
      forall d: Client, l: K | (d, l) in y.entries ensures EntryOk(y, d, l) {
        if (d, l) in x.entries {
          assert EntryOk(x, d, l);
        } else {
          assert (d, l) == (c, k);
          assert y.waiters[k][|Waiting(x, k)|] == Node(x.nextId, c);
        }
      }
    }
  }

  lemma AddLists<K(!new)>(x: Index<K>, noKey: set<Client>, c: Client, k: K, flag: bool)
    requires IndexOk(x, noKey) && (c, k) !in x.entries
    ensures var y := Added(x, c, k, flag); forall l <- y.waiters :: ListOk(y, l)
  {
    hide Flagged, EntryOk, CountOk;
    var y := Added(x, c, k, flag);
    forall l | l in y.waiters ensures ListOk(y, l) {
      if l in x.waiters {
        assert ListOk(x, l);
      }
    }
  }

  lemma AddCounts<K(!new)>(x: Index<K>, noKey: set<Client>, c: Client, k: K, flag: bool)
    requires IndexOk(x, noKey) && (c, k) !in x.entries && (flag <==> c in noKey)
    ensures var y := Added(x, c, k, flag); forall l: K :: CountOk(y, noKey, l)
  {
    hide ListOk, EntryOk;
    var y := Added(x, c, k, flag);
    FlaggedAppend(Waiting(x, k), [Node(x.nextId, c)], noKey);
    assert [Node(x.nextId, c)][1..] == [];
    forall l: K ensures CountOk(y, noKey, l) {
      assert CountOk(x, noKey, l);
    }
  }

  // ---- removing ----

  /** releaseBlockedEntry, the client's own dictionary included. */
  function Released<K>(x: Index<K>, c: Client, k: K, flag: bool): Index<K>
    requires (c, k) in x.entries
  {
    var rest := Without(Waiting(x, k), x.entries[(c, k)]);
    var counts :=
      if rest == [] then x.counts - {k}
      else if !flag then x.counts
      else if CountOf(x, k) <= 1 then x.counts - {k}
      else x.counts[k := CountOf(x, k) - 1];
    Index(x.entries - {(c, k)}, if rest == [] then x.waiters - {k} else x.waiters[k := rest], counts, x.nextId)
  }

  lemma ReleaseKeeps<K(!new)>(x: Index<K>, noKey: set<Client>, c: Client, k: K)
    requires IndexOk(x, noKey) && (c, k) in x.entries
    ensures IndexOk(Released(x, c, k, c in noKey), noKey)
  {
    ReleaseLists(x, noKey, c, k);
    ReleaseEntries(x, noKey, c, k);
    ReleaseCounts(x, noKey, c, k);
  }

  lemma ReleaseLists<K(!new)>(x: Index<K>, noKey: set<Client>, c: Client, k: K)
    requires IndexOk(x, noKey) && (c, k) in x.entries
    ensures var y := Released(x, c, k, c in noKey); forall l <- y.waiters :: ListOk(y, l)
  {
    hide Flagged, EntryOk, CountOk;
    var y := Released(x, c, k, c in noKey);
    var i := Position(x, noKey, c, k);
    WithoutAt(x.waiters[k], i);
    forall l | l in y.waiters ensures ListOk(y, l) {
      assert ListOk(x, l);
    }
  }

  lemma ReleaseEntries<K(!new)>(x: Index<K>, noKey: set<Client>, c: Client, k: K)
    requires IndexOk(x, noKey) && (c, k) in x.entries
    ensures var y := Released(x, c, k, c in noKey); forall d: Client, l: K :: (d, l) in y.entries ==> EntryOk(y, d, l)
  {
    hide Flagged, CountOk;
    var y := Released(x, c, k, c in noKey);
    var i := Position(x, noKey, c, k);
    forall d: Client, l: K | (d, l) in y.entries ensures EntryOk(y, d, l) {
      assert EntryOk(x, d, l);
      if l == k {
        var n := Node(x.entries[(d, k)], d);
        WithoutMembers(x.waiters[k], x.entries[(c, k)], n);
        var j :| 0 <= j < |x.waiters[k]| && x.waiters[k][j] == n;
      }
    }
  }

  lemma ReleaseCounts<K(!new)>(x: Index<K>, noKey: set<Client>, c: Client, k: K)
    requires IndexOk(x, noKey) && (c, k) in x.entries
    ensures var y := Released(x, c, k, c in noKey); forall l: K :: CountOk(y, noKey, l)
    ensures c in noKey ==> k in x.counts && x.counts[k] > 0
  {
    hide EntryOk;
    var y := Released(x, c, k, c in noKey);
    var i := Position(x, noKey, c, k);
    WithoutFlagged(x.waiters[k], i, noKey);
    assert CountOk(x, noKey, k);
    hide ListOk;
    forall l: K ensures CountOk(y, noKey, l) {
      assert CountOk(x, noKey, l);
    }
  }

  /** The flag of a client that waits for nothing does not matter. */
  lemma FlagMayChange<K(!new)>(x: Index<K>, noKey: set<Client>, other: set<Client>)
    requires IndexOk(x, noKey)
    requires forall c: Client, k: K :: (c, k) in x.entries ==> (c in noKey <==> c in other)
    ensures IndexOk(x, other)
  {
    forall k: K ensures CountOk(x, other, k) {
      assert CountOk(x, noKey, k);
      if k in x.waiters {
        assert ListOk(x, k);
        FlaggedSame(x.waiters[k], noKey, other);
      }
    }
  }

  // ---- a client leaves ----

  /** The nodes of the other clients, in order. */
  function Others(nodes: seq<Node>, c: Client): seq<Node> {
    if nodes == [] then []
    else if nodes[0].client == c then Others(nodes[1..], c)
    else [nodes[0]] + Others(nodes[1..], c)
  }

  lemma {:induction false} OthersAppend(a: seq<Node>, b: seq<Node>, c: Client)
    ensures Others(a + b, c) == Others(a, c) + Others(b, c)
    decreases |a|
  {
    if a == [] {
      assert a + b == b;
    } else {
      assert (a + b)[1..] == a[1..] + b;
      OthersAppend(a[1..], b, c);
    }
  }

  lemma {:induction false} OthersSame(nodes: seq<Node>, c: Client)
    requires forall i :: 0 <= i < |nodes| ==> nodes[i].client != c
    ensures Others(nodes, c) == nodes
    decreases |nodes|
  {
    if nodes != [] {
      OthersSame(nodes[1..], c);
    }
  }

  lemma OthersDrop(n: Node, rest: seq<Node>)
    ensures Others([n] + rest, n.client) == Others(rest, n.client)
  {
    assert ([n] + rest)[1..] == rest;
  }

  lemma OthersPart(nodes: seq<Node>, a: nat, b: nat, c: Client)
    requires a <= b <= |nodes| && forall j :: a <= j < b ==> nodes[j].client != c
    ensures Others(nodes[a..b], c) == nodes[a..b]
  {
    hide Others;
    OthersSame(nodes[a..b], c);
  }

  lemma AroundNode(nodes: seq<Node>, i: nat)
    requires i < |nodes|
    ensures nodes == nodes[0..i] + ([nodes[i]] + nodes[i + 1..|nodes|])
    ensures nodes[..i] == nodes[0..i] && nodes[i + 1..] == nodes[i + 1..|nodes|]
  {
  }

  lemma OthersAt(nodes: seq<Node>, i: nat)
    requires i < |nodes| && forall j :: 0 <= j < |nodes| && j != i ==> nodes[j].client != nodes[i].client
    ensures Others(nodes, nodes[i].client) == nodes[..i] + nodes[i + 1..]
  {
    hide Others;
    var c, before, after := nodes[i].client, nodes[0..i], nodes[i + 1..|nodes|];
    OthersPart(nodes, 0, i, c);
    OthersPart(nodes, i + 1, |nodes|, c);
    AroundNode(nodes, i);
    OthersDrop(nodes[i], after);
    OthersAppend(before, [nodes[i]] + after, c);
  }

  /** A client stands at one place of a list only. */
  lemma OnePlace<K(!new)>(x: Index<K>, k: K, i: nat)
    requires k in x.waiters && ListOk(x, k) && i < |x.waiters[k]|
    ensures var nodes := x.waiters[k];
      && DistinctIds(nodes) && forall j :: 0 <= j < |nodes| && j != i ==> nodes[j].client != nodes[i].client
  {
  }

  /** Taking a client's node out is taking the client out. */
  lemma ReleaseOthers<K(!new)>(x: Index<K>, noKey: set<Client>, c: Client, k: K)
    requires IndexOk(x, noKey) && (c, k) in x.entries
    ensures var y := Released(x, c, k, c in noKey);
      && y.entries == x.entries - {(c, k)} && y.nextId == x.nextId
      && Waiting(y, k) == Others(Waiting(x, k), c)
      && forall l: K :: l != k ==> Waiting(y, l) == Waiting(x, l)
  {
    var i := Position(x, noKey, c, k);
    hide IndexOk, ListOk;
    OnePlace(x, k, i);
    WithoutAt(x.waiters[k], i);
    OthersAt(x.waiters[k], i);
    hide DistinctIds, Others, Without;
  }

  function KeysOf<K>(x: Index<K>, c: Client): set<K> { set e | e in x.entries && e.0 == c :: e.1 }

  /** `y` is `x` without the entries of client `c` for the keys outside `todo`. */
  ghost predicate Left<K(!new)>(x: Index<K>, y: Index<K>, c: Client, todo: set<K>) {
    && y.nextId == x.nextId
    && (forall d: Client, k: K :: (d, k) in y.entries <==> (d, k) in x.entries && (d == c ==> k in todo))
    && (forall d: Client, k: K :: (d, k) in y.entries ==> y.entries[(d, k)] == x.entries[(d, k)])
    && (forall k: K :: Waiting(y, k) == if (c, k) in x.entries && k !in todo then Others(Waiting(x, k), c) else Waiting(x, k))
  }

  lemma LeftStart<K(!new)>(x: Index<K>, c: Client)
    ensures Left(x, x, c, KeysOf(x, c)) && forall k: K :: k in KeysOf(x, c) <==> (c, k) in x.entries
  {
    forall k: K ensures k in KeysOf(x, c) <==> (c, k) in x.entries {
      if (c, k) in x.entries {
        assert (c, k).0 == c && (c, k).1 == k;
      }
    }
  }

  lemma LeftStep<K(!new)>(x: Index<K>, y: Index<K>, z: Index<K>, c: Client, todo: set<K>, k: K)
    requires Left(x, y, c, todo) && k in todo && (c, k) in x.entries
    requires z.entries == y.entries - {(c, k)} && z.nextId == y.nextId
    requires Waiting(z, k) == Others(Waiting(y, k), c)
    requires forall l: K :: l != k ==> Waiting(z, l) == Waiting(y, l)
    ensures Left(x, z, c, todo - {k})
  {
  }

  // ---- joining several lists ----

  /** blockForKeys on the index. */
  function AddedAll<K>(x: Index<K>, c: Client, keys: seq<K>, flag: bool): Index<K> {
    if keys == [] then x else Added(AddedAll(x, c, keys[..|keys| - 1], flag), c, keys[|keys| - 1], flag)
  }

  /** The nodes already in a list stay where they are; a node that joins is new and comes last. */
  lemma {:induction false} AddedAllWaiting<K(!new)>(x: Index<K>, c: Client, keys: seq<K>, flag: bool, k: K)
    requires (c, k) !in x.entries
    ensures var y := AddedAll(x, c, keys, flag);
      && y.nextId >= x.nextId && ((c, k) in y.entries <==> k in keys)
      && (k !in keys ==> Waiting(y, k) == Waiting(x, k))
      && (k in keys ==> (c, k) in y.entries && y.entries[(c, k)] >= x.nextId &&
                        Waiting(y, k) == Waiting(x, k) + [Node(y.entries[(c, k)], c)])
    decreases |keys|
  {
    if keys != [] {
      var short, last := keys[..|keys| - 1], keys[|keys| - 1];
      AddedAllWaiting(x, c, short, flag, k);
      assert keys == short + [last];
    }
  }
}
