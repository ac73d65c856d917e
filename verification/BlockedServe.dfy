/**
  What serving blocked clients does to the bookkeeping, stated on values: who
  leaves, who stays, who waits again, and which signals are heard.
  */
module BlockedServe {
  import opened Wrappers
  import opened BlockedIndex

  /** What a client waits for, and what kinds of values can be waited for. */
  datatype BType = ListWait | ZsetWait | StreamWait

  /** What running a served client's command does to this bookkeeping. */
  datatype Act<K> =
    | Signal(key: K, btype: Option<BType>, deleted: bool)
    | Reblock(wait: BType, keys: seq<K>, noKey: bool)

  /** One visit: the value found at the key, if any, by what it can serve, and the effects of the command. */
  datatype Visit<K> = Visit(found: Option<Option<BType>>, acts: seq<Act<K>>)

  function VisitAt<K>(supply: seq<Visit<K>>, i: nat): Visit<K> { if i < |supply| then supply[i] else Visit(None, []) }

  /** Who waits for what: the index, the type each client is blocked on, and who waits for a key to go. */
  datatype Snap<K> = Snap(index: Index<K>, btypes: map<Client, BType>, noKey: set<Client>)

  /** Where a command blocks again, or the number of its acts. */
  function FirstReblock<K>(acts: seq<Act<K>>): (j: nat)
    ensures j <= |acts| && (j < |acts| ==> acts[j].Reblock?) && forall i :: 0 <= i < j ==> !acts[i].Reblock?
  {
    if acts == [] || acts[0].Reblock? then 0 else 1 + FirstReblock(acts[1..])
  }

  /** A served client: it waits for nothing, or for what its command waits for now. */
  ghost predicate Reprocessed<K(!new)>(b: Snap<K>, c: Client, acts: seq<Act<K>>) {
    var j := FirstReblock(acts);
    if j == |acts| then c !in b.btypes && c !in b.noKey && forall k: K :: (c, k) !in b.index.entries
    else
      && c in b.btypes && b.btypes[c] == acts[j].wait && (c in b.noKey <==> acts[j].noKey)
      && forall k: K :: (c, k) in b.index.entries <==> k in acts[j].keys
  }

  /** A client that is left alone. */
  ghost predicate SameFor<K(!new)>(a: Snap<K>, b: Snap<K>, c: Client) {
    && (c in a.btypes <==> c in b.btypes) && (c in a.btypes ==> a.btypes[c] == b.btypes[c])
    && (c in a.noKey <==> c in b.noKey)
    && forall k: K :: ((c, k) in a.index.entries <==> (c, k) in b.index.entries) &&
                      ((c, k) in a.index.entries ==> a.index.entries[(c, k)] == b.index.entries[(c, k)])
  }

  /** The list of one key when client `c` has left and perhaps joined again. */
  ghost predicate ListStep<K(!new)>(x: Index<K>, y: Index<K>, c: Client, k: K) {
    if (c, k) in y.entries then
      y.entries[(c, k)] >= x.nextId && Waiting(y, k) == Others(Waiting(x, k), c) + [Node(y.entries[(c, k)], c)]
    else Waiting(y, k) == Others(Waiting(x, k), c)
  }

  /** One client has been served. */
  ghost predicate Served<K(!new)>(a: Snap<K>, b: Snap<K>, c: Client, acts: seq<Act<K>>) {
    && Reprocessed(b, c, acts) && a.index.nextId <= b.index.nextId
    && (forall d: Client :: d != c ==> SameFor(a, b, d))
    && (forall k: K :: ListStep(a.index, b.index, c, k))
  }

  // ---- leaving every list ----

  /** After its release from one key and then from all, a client is in no list. */
  lemma LeftAll<K(!new)>(x: Index<K>, y: Index<K>, z: Index<K>, noKey: set<Client>, c: Client, key: K)
    requires IndexOk(x, noKey) && (c, key) in x.entries && y == Released(x, c, key, c in noKey) && Left(y, z, c, {})
    ensures z.nextId == x.nextId
    ensures forall d: Client, k: K :: (d, k) in z.entries <==> d != c && (d, k) in x.entries
    ensures forall d: Client, k: K :: (d, k) in z.entries ==> z.entries[(d, k)] == x.entries[(d, k)]
    ensures forall k: K :: Waiting(z, k) == Others(Waiting(x, k), c)
  {
    ReleaseOthers(x, noKey, c, key);
    hide IndexOk, Released, Others;
    forall k: K ensures Waiting(z, k) == Others(Waiting(x, k), c) {
      if (c, k) !in x.entries {
        NotThere(x, noKey, c, k);
      }
    }
  }

  lemma NotThere<K(!new)>(x: Index<K>, noKey: set<Client>, c: Client, k: K)
    requires IndexOk(x, noKey) && (c, k) !in x.entries
    ensures Others(Waiting(x, k), c) == Waiting(x, k)
  {
    OnceAtTheNode(x, noKey, c, k);
    hide IndexOk;
    forall i | 0 <= i < |Waiting(x, k)| ensures Waiting(x, k)[i].client != c {
      assert !At(Waiting(x, k), c, i);
    }
    OthersSame(Waiting(x, k), c);
  }

  /** Joining touches nobody else's dictionary. */
  lemma {:induction false} AddedAllOthers<K(!new)>(x: Index<K>, c: Client, keys: seq<K>, flag: bool)
    ensures var y := AddedAll(x, c, keys, flag);
      forall d: Client, k: K :: d != c ==>
        ((d, k) in y.entries <==> (d, k) in x.entries) && ((d, k) in x.entries ==> y.entries[(d, k)] == x.entries[(d, k)])
    decreases |keys|
  {
    if keys != [] {
      AddedAllOthers(x, c, keys[..|keys| - 1], flag);
    }
  }

  lemma AddedAllLists<K(!new)>(x: Index<K>, c: Client, keys: seq<K>, flag: bool)
    requires forall k: K :: (c, k) !in x.entries
    ensures var y := AddedAll(x, c, keys, flag);
      && (forall k: K :: (c, k) in y.entries <==> k in keys)
      && (forall k: K :: (c, k) in y.entries ==>
            y.entries[(c, k)] >= x.nextId && Waiting(y, k) == Waiting(x, k) + [Node(y.entries[(c, k)], c)])
      && (forall k: K :: (c, k) !in y.entries ==> Waiting(y, k) == Waiting(x, k))
  {
    hide AddedAll;
    forall k: K ensures
      var y := AddedAll(x, c, keys, flag);
      && ((c, k) in y.entries <==> k in keys)
      && ((c, k) in y.entries ==>
            y.entries[(c, k)] >= x.nextId && Waiting(y, k) == Waiting(x, k) + [Node(y.entries[(c, k)], c)])
      && ((c, k) !in y.entries ==> Waiting(y, k) == Waiting(x, k))
    {
      AddedAllWaiting(x, c, keys, flag, k);
    }
  }

  lemma {:induction false} AddedAllNext<K(!new)>(x: Index<K>, c: Client, keys: seq<K>, flag: bool)
    ensures AddedAll(x, c, keys, flag).nextId >= x.nextId
    decreases |keys|
  {
    if keys != [] {
      AddedAllNext(x, c, keys[..|keys| - 1], flag);
    }
  }

  // ---- a pass over the waiters of a key ----

  /** The value found suits the client, or the client waits for the key to go. */
  ghost predicate Suits<K>(a: Snap<K>, c: Client, visit: Visit<K>) {
    (c in a.btypes && visit.found == Some(Some(a.btypes[c]))) || c in a.noKey
  }

  /** The clients among the first `n` nodes that are served. */
  ghost function Gone<K>(a: Snap<K>, nodes: seq<Node>, supply: seq<Visit<K>>, n: nat): set<Client>
    requires n <= |nodes|
  {
    set i | 0 <= i < n && Suits(a, nodes[i].client, VisitAt(supply, i)) :: nodes[i].client
  }

  /** The nodes of clients outside a set, in order. */
  function Outside(nodes: seq<Node>, gone: set<Client>): seq<Node> {
    if nodes == [] then []
    else if nodes[0].client in gone then Outside(nodes[1..], gone)
    else [nodes[0]] + Outside(nodes[1..], gone)
  }

  /** A served client's nodes are new. */
  ghost predicate Newer<K(!new)>(a: Snap<K>, b: Snap<K>, c: Client) {
    forall k: K :: (c, k) in b.index.entries ==> b.index.entries[(c, k)] >= a.index.nextId
  }

  /** The first `n` waiters have been visited: those the visits suit are served, all others are left alone, in order. */
  ghost predicate Handled<K(!new)>(a: Snap<K>, b: Snap<K>, nodes: seq<Node>, supply: seq<Visit<K>>, n: nat)
    requires n <= |nodes|
  {
    var gone := Gone(a, nodes, supply, n);
    && a.index.nextId <= b.index.nextId
    && (forall i :: 0 <= i < n && nodes[i].client in gone ==>
          Reprocessed(b, nodes[i].client, VisitAt(supply, i).acts) && Newer(a, b, nodes[i].client))
    && (forall c: Client :: c !in gone ==> SameFor(a, b, c))
    && (forall k: K :: Outside(Waiting(a.index, k), gone) <= Waiting(b.index, k))
  }

  predicate DistinctClients(nodes: seq<Node>) { forall i, j :: 0 <= i < j < |nodes| ==> nodes[i].client != nodes[j].client }

  lemma {:induction false} OutsideNone(nodes: seq<Node>)
    ensures Outside(nodes, {}) == nodes
  {
    if nodes != [] {
      OutsideNone(nodes[1..]);
    }
  }

  lemma {:induction false} OutsideOthers(nodes: seq<Node>, gone: set<Client>, c: Client)
    ensures Outside(nodes, gone + {c}) == Others(Outside(nodes, gone), c)
  {
    if nodes != [] {
      OutsideOthers(nodes[1..], gone, c);
      var rest := Outside(nodes[1..], gone);
      if nodes[0].client !in gone {
        assert ([nodes[0]] + rest)[1..] == rest;
      }
    }
  }

  lemma OthersPrefix(a: seq<Node>, b: seq<Node>, c: Client)
    requires a <= b
    ensures Others(a, c) <= Others(b, c)
  {
    assert b == a + b[|a|..];
    OthersAppend(a, b[|a|..], c);
  }

  lemma HandledNone<K(!new)>(a: Snap<K>, nodes: seq<Node>, supply: seq<Visit<K>>)
    ensures Handled(a, a, nodes, supply, 0)
  {
    assert Gone(a, nodes, supply, 0) == {};
    forall k: K ensures Outside(Waiting(a.index, k), {}) <= Waiting(a.index, k) {
      OutsideNone(Waiting(a.index, k));
    }
  }

  lemma GoneNext<K>(a: Snap<K>, nodes: seq<Node>, supply: seq<Visit<K>>, n: nat)
    requires n < |nodes|
    ensures Gone(a, nodes, supply, n + 1) ==
      Gone(a, nodes, supply, n) + (if Suits(a, nodes[n].client, VisitAt(supply, n)) then {nodes[n].client} else {})
  {
    hide Suits;
  }

  lemma NotGoneYet<K>(a: Snap<K>, nodes: seq<Node>, supply: seq<Visit<K>>, n: nat)
    requires n < |nodes| && DistinctClients(nodes)
    ensures nodes[n].client !in Gone(a, nodes, supply, n)
  {
    hide Suits;
  }

  lemma HandledSkip<K(!new)>(a: Snap<K>, b: Snap<K>, nodes: seq<Node>, supply: seq<Visit<K>>, n: nat)
    requires n < |nodes| && DistinctClients(nodes) && Handled(a, b, nodes, supply, n)
    requires !Suits(a, nodes[n].client, VisitAt(supply, n))
    ensures Handled(a, b, nodes, supply, n + 1)
  {
    GoneNext(a, nodes, supply, n);
    NotGoneYet(a, nodes, supply, n);
    var gone := Gone(a, nodes, supply, n);
    assert gone + {} == gone;
    hide Gone, Suits, Reprocessed, SameFor, Newer, Outside;
  }

  /** A client served later does not disturb one served before. */
  lemma ReprocessedStays<K(!new)>(b: Snap<K>, b': Snap<K>, c: Client, acts: seq<Act<K>>)
    requires Reprocessed(b, c, acts) && SameFor(b, b', c)
    ensures Reprocessed(b', c, acts)
  {
  }

  lemma SameTwice<K(!new)>(a: Snap<K>, b: Snap<K>, b': Snap<K>, c: Client)
    requires SameFor(a, b, c) && SameFor(b, b', c)
    ensures SameFor(a, b', c)
  {
  }

  lemma NewerStays<K(!new)>(a: Snap<K>, b: Snap<K>, b': Snap<K>, c: Client)
    requires Newer(a, b, c) && SameFor(b, b', c)
    ensures Newer(a, b', c)
  {
  }

  lemma ServedNewer<K(!new)>(a: Snap<K>, b: Snap<K>, b': Snap<K>, c: Client)
    requires a.index.nextId <= b.index.nextId && forall k: K :: ListStep(b.index, b'.index, c, k)
    ensures Newer(a, b', c)
  {
    hide Others;
    forall k: K | (c, k) in b'.index.entries ensures b'.index.entries[(c, k)] >= a.index.nextId {
      assert ListStep(b.index, b'.index, c, k);
    }
  }

  lemma ListsStep<K(!new)>(a: Snap<K>, b: Snap<K>, b': Snap<K>, gone: set<Client>, c: Client, k: K)
    requires Outside(Waiting(a.index, k), gone) <= Waiting(b.index, k) && ListStep(b.index, b'.index, c, k)
    ensures Outside(Waiting(a.index, k), gone + {c}) <= Waiting(b'.index, k)
  {
    OutsideOthers(Waiting(a.index, k), gone, c);
    OthersPrefix(Outside(Waiting(a.index, k), gone), Waiting(b.index, k), c);
  }

  lemma HandledServe<K(!new)>(a: Snap<K>, b: Snap<K>, b': Snap<K>, nodes: seq<Node>, supply: seq<Visit<K>>, n: nat)
    requires n < |nodes| && DistinctClients(nodes) && Handled(a, b, nodes, supply, n)
    requires Suits(a, nodes[n].client, VisitAt(supply, n))
    requires Served(b, b', nodes[n].client, VisitAt(supply, n).acts)
    ensures Handled(a, b', nodes, supply, n + 1)
  {
    GoneNext(a, nodes, supply, n);
    NotGoneYet(a, nodes, supply, n);
    var gone, c := Gone(a, nodes, supply, n), nodes[n].client;
    hide Gone, Suits, Reprocessed, SameFor, Newer, Outside, ListStep;
    ServedNewer(a, b, b', c);
    forall i | 0 <= i < n + 1 && nodes[i].client in gone + {c}
      ensures Reprocessed(b', nodes[i].client, VisitAt(supply, i).acts) && Newer(a, b', nodes[i].client)
    {
      if i < n {
        ReprocessedStays(b, b', nodes[i].client, VisitAt(supply, i).acts);
        NewerStays(a, b, b', nodes[i].client);
      }
    }
    forall d: Client | d !in gone + {c} ensures SameFor(a, b', d) {
      SameTwice(a, b, b', d);
    }
    forall k: K ensures Outside(Waiting(a.index, k), gone + {c}) <= Waiting(b'.index, k) {
      ListsStep(a, b, b', gone, c, k);
    }
  }

  lemma {:induction false} OutsideKeeps(nodes: seq<Node>, gone: set<Client>, n: Node)
    ensures n in Outside(nodes, gone) <==> n in nodes && n.client !in gone
  {
    if nodes != [] {
      OutsideKeeps(nodes[1..], gone, n);
      assert nodes == [nodes[0]] + nodes[1..];
    }
  }

  /** In the end a node that stood in the list stays exactly if its visit did not suit. */
  lemma HandledStays<K(!new)>(a: Snap<K>, b: Snap<K>, key: K, supply: seq<Visit<K>>, i: nat)
    requires IndexOk(a.index, a.noKey) && IndexOk(b.index, b.noKey)
    requires var nodes := Waiting(a.index, key); i < |nodes| && DistinctClients(nodes) && Handled(a, b, nodes, supply, |nodes|)
    ensures var nodes := Waiting(a.index, key);
      nodes[i] in Waiting(b.index, key) <==> !Suits(a, nodes[i].client, VisitAt(supply, i))
  {
    var nodes := Waiting(a.index, key);
    var n, gone := nodes[i], Gone(a, nodes, supply, |nodes|);
    assert n.client in gone <==> Suits(a, n.client, VisitAt(supply, i));
    assert ListOk(a.index, key);
    hide Gone, Suits, Outside, Reprocessed, SameFor;
    OutsideKeeps(nodes, gone, n);
    assert key in b.index.waiters ==> ListOk(b.index, key);
    if n.client in gone {
      assert Newer(a, b, n.client);
    } else {
      var kept := Outside(nodes, gone);
      assert kept <= Waiting(b.index, key) && n in kept;
    }
  }

  // ---- signals ----

  /** A signal that the code queues, in the state it finds. */
  predicate Heard<K(==)>(x: Index<K>, byType: map<BType, nat>, act: Act<K>) {
    && act.Signal? && act.btype.Some? && act.btype.value in byType && byType[act.btype.value] > 0
    && if act.deleted then act.key in x.counts else act.key in x.waiters
  }

  /** The keys of the signals among the acts from `lo` up to `hi` that are heard. */
  function HeardKeys<K(==)>(acts: seq<Act<K>>, lo: nat, hi: nat, x: Index<K>, byType: map<BType, nat>): set<K>
    requires hi <= |acts|
  {
    set i | lo <= i < hi && Heard(x, byType, acts[i]) :: acts[i].key
  }

  lemma HeardNext<K(!new)>(acts: seq<Act<K>>, lo: nat, i: nat, x: Index<K>, byType: map<BType, nat>)
    requires lo <= i < |acts|
    ensures HeardKeys(acts, lo, i + 1, x, byType) ==
              HeardKeys(acts, lo, i, x, byType) + if Heard(x, byType, acts[i]) then {acts[i].key} else {}
  {
    var now, then_ := HeardKeys(acts, lo, i + 1, x, byType), HeardKeys(acts, lo, i, x, byType);
    forall k: K ensures k in now <==> k in then_ || (Heard(x, byType, acts[i]) && k == acts[i].key) {
      if k in now {
        var j :| lo <= j < i + 1 && Heard(x, byType, acts[j]) && acts[j].key == k;
      }
    }
  }

  lemma NoneHeard<K(!new)>(acts: seq<Act<K>>, i: nat, x: Index<K>, byType: map<BType, nat>)
    requires i <= |acts|
    ensures HeardKeys(acts, i, i, x, byType) == {}
  {
  }

  /** Clients outside `gone` wait for the signal: one for such a value, and one for the key, or for its going. */
  ghost predicate Awaited<K(!new)>(b: Snap<K>, gone: set<Client>, act: Act<K>) {
    && act.Signal? && act.btype.Some?
    && (exists d: Client :: d !in gone && d in b.btypes && b.btypes[d] == act.btype.value)
    && (exists e: Client :: e !in gone && (e, act.key) in b.index.entries && (act.deleted ==> e in b.noKey))
  }

  /** What one served command's signals make of the ready keys. */
  ghost predicate SignalsQueued<K(!new)>(a: Snap<K>, c: Client, acts: seq<Act<K>>, ready: set<K>, now: set<K>) {
    && ready <= now
    && (forall k: K :: k in now && k !in ready ==> Signalled(acts, k))
    && (forall i :: 0 <= i < |acts| && Awaited(a, {c}, acts[i]) ==> acts[i].key in now)
  }

  predicate Signalled<K(==)>(acts: seq<Act<K>>, k: K) {
    exists i :: 0 <= i < |acts| && acts[i].Signal? && acts[i].key == k
  }

  /** What the command does after the client has left: it blocks again at `j`, or not at all. */
  ghost predicate Blocks<K>(a: Snap<K>, b: Snap<K>, c: Client, acts: seq<Act<K>>, j: nat) {
    if j >= |acts| || !acts[j].Reblock? then b == a
    else
      && b.index == AddedAll(a.index, c, acts[j].keys, acts[j].noKey)
      && b.btypes == a.btypes[c := acts[j].wait]
      && b.noKey == if acts[j].noKey then a.noKey + {c} else a.noKey
  }

  /** Client `c` is in no list and in no dictionary, the others are as they were. */
  ghost predicate Parted<K(!new)>(a: Snap<K>, z: Snap<K>, c: Client) {
    && z.index.nextId == a.index.nextId && z.btypes == a.btypes - {c} && z.noKey == a.noKey - {c}
    && (forall d: Client, k: K :: (d, k) in z.index.entries <==> d != c && (d, k) in a.index.entries)
    && (forall d: Client, k: K :: (d, k) in z.index.entries ==> z.index.entries[(d, k)] == a.index.entries[(d, k)])
    && (forall k: K :: Waiting(z.index, k) == Others(Waiting(a.index, k), c))
  }

  lemma ServedIs<K(!new)>(a: Snap<K>, z: Snap<K>, b: Snap<K>, c: Client, acts: seq<Act<K>>)
    requires Parted(a, z, c) && Blocks(z, b, c, acts, FirstReblock(acts))
    ensures Served(a, b, c, acts)
  {
    hide AddedAll, Others;
    var j := FirstReblock(acts);
    if j < |acts| {
      AddedAllLists(z.index, c, acts[j].keys, acts[j].noKey);
      AddedAllOthers(z.index, c, acts[j].keys, acts[j].noKey);
      AddedAllNext(z.index, c, acts[j].keys, acts[j].noKey);
    }
  }

  /** Whoever waits after the leave and the new wait is heard by every signal of the command. */
  lemma AwaitedHeard<K(!new)>(b: Snap<K>, byType: map<BType, nat>, act: Act<K>, d: Client, e: Client)
    requires IndexOk(b.index, b.noKey) && act.Signal? && act.btype.Some?
    requires forall t: BType :: t in byType && (byType[t] > 0 <==> exists f :: f in b.btypes && b.btypes[f] == t)
    requires d in b.btypes && b.btypes[d] == act.btype.value
    requires (e, act.key) in b.index.entries && (act.deleted ==> e in b.noKey)
    ensures Heard(b.index, byType, act)
  {
    var i := Position(b.index, b.noKey, e, act.key);
    ReleaseCounts(b.index, b.noKey, e, act.key);
    hide IndexOk, ListOk;
  }

  // ---- the signals of a pass ----

  ghost predicate Reached<K(!new)>(a: Snap<K>, gone: set<Client>, acts: seq<Act<K>>, now: set<K>) {
    forall j :: 0 <= j < |acts| && Awaited(a, gone, acts[j]) ==> acts[j].key in now
  }

  /** What the signals of the served clients among the first `n` make of the ready keys. */
  ghost predicate PassSignals<K(!new)>(a: Snap<K>, nodes: seq<Node>, supply: seq<Visit<K>>, n: nat, ready: set<K>, now: set<K>)
    requires n <= |nodes|
  {
    var gone := Gone(a, nodes, supply, |nodes|);
    && ready <= now
    && (forall k: K :: k in now && k !in ready ==> exists i :: 0 <= i < n && Signalled(VisitAt(supply, i).acts, k))
    && (forall i :: 0 <= i < n && nodes[i].client in gone ==> Reached(a, gone, VisitAt(supply, i).acts, now))
  }

  /** Those who are not served wait at every moment of the pass. */
  lemma AwaitedLater<K(!new)>(a: Snap<K>, b: Snap<K>, gone: set<Client>, c: Client, act: Act<K>)
    requires Awaited(a, gone, act) && c in gone && forall d: Client :: d !in gone ==> SameFor(a, b, d)
    ensures Awaited(b, {c}, act)
  {
    var d: Client :| d !in gone && d in a.btypes && a.btypes[d] == act.btype.value;
    var e: Client :| e !in gone && (e, act.key) in a.index.entries && (act.deleted ==> e in a.noKey);
    assert SameFor(a, b, d) && SameFor(a, b, e);
  }

  lemma GoneGrows<K>(a: Snap<K>, nodes: seq<Node>, supply: seq<Visit<K>>, n: nat)
    requires n <= |nodes|
    ensures Gone(a, nodes, supply, n) <= Gone(a, nodes, supply, |nodes|)
    ensures forall i :: 0 <= i < |nodes| && Suits(a, nodes[i].client, VisitAt(supply, i)) ==>
              nodes[i].client in Gone(a, nodes, supply, |nodes|)
  {
    hide Suits;
  }

  lemma {:induction false} GoneIff<K>(a: Snap<K>, nodes: seq<Node>, supply: seq<Visit<K>>, i: nat)
    requires i < |nodes| && DistinctClients(nodes)
    ensures nodes[i].client in Gone(a, nodes, supply, |nodes|) <==> Suits(a, nodes[i].client, VisitAt(supply, i))
  {
    hide Suits;
  }

  lemma SignalsSkip<K(!new)>(a: Snap<K>, nodes: seq<Node>, supply: seq<Visit<K>>, n: nat, ready: set<K>, now: set<K>)
    requires n < |nodes| && DistinctClients(nodes) && PassSignals(a, nodes, supply, n, ready, now)
    requires !Suits(a, nodes[n].client, VisitAt(supply, n))
    ensures PassSignals(a, nodes, supply, n + 1, ready, now)
  {
    GoneIff(a, nodes, supply, n);
    hide Gone, Suits, Awaited, Signalled;
  }

  lemma SignalsServe<K(!new)>(a: Snap<K>, b: Snap<K>, nodes: seq<Node>, supply: seq<Visit<K>>, n: nat,
                              ready: set<K>, mid: set<K>, now: set<K>)
    requires n < |nodes| && DistinctClients(nodes) && PassSignals(a, nodes, supply, n, ready, mid)
    requires Handled(a, b, nodes, supply, n) && Suits(a, nodes[n].client, VisitAt(supply, n))
    requires SignalsQueued(b, nodes[n].client, VisitAt(supply, n).acts, mid, now)
    ensures PassSignals(a, nodes, supply, n + 1, ready, now)
  {
    var gone, c, acts := Gone(a, nodes, supply, |nodes|), nodes[n].client, VisitAt(supply, n).acts;
    GoneIff(a, nodes, supply, n);
    GoneGrows(a, nodes, supply, n);
    hide Gone, Suits, Awaited, Signalled, SameFor, Reprocessed, Newer, Outside;
    forall j | 0 <= j < |acts| && Awaited(a, gone, acts[j]) ensures acts[j].key in now {
      AwaitedLater(a, b, gone, c, acts[j]);
    }
  }
}
