/**
  Clients blocked on keys: blocking, unblocking, signalling keys as ready and
  serving the waiters of ready keys.
  */
module Blocked {
  import opened Wrappers
  import opened BlockedIndex
  import opened BlockedServe

  ghost predicate Distinct<K>(s: seq<K>) { forall i, j :: 0 <= i < j < |s| ==> s[i] != s[j] }

  /** db->ready_keys is the set of the queued keys, and no key is queued twice. */
  ghost predicate ReadyOk<K(!new)>(readyKeys: set<K>, queued: seq<K>) {
    Distinct(queued) && forall k :: k in readyKeys <==> k in queued
  }

  function OfType(btypes: map<Client, BType>, t: BType): set<Client> { set c | c in btypes && btypes[c] == t }

  class Blocking<K(==,!new)> {
    var index: Index<K>
    var btypes: map<Client, BType>
    var noKey: set<Client>
    var byType: map<BType, nat>
    var readyKeys: set<K>
    var readyList: seq<K>
    /** What is left of the list being drained. */
    ghost var serving: seq<K>

    ghost function Now(): Snap<K>
      reads this
    {
      Snap(index, btypes, noKey)
    }

    ghost predicate Indexed()
      reads this
    {
      IndexOk(index, noKey) && noKey <= btypes.Keys && Owned(index, btypes.Keys)
    }

    ghost predicate Counted()
      reads this
    {
      forall t: BType :: t in byType && byType[t] == |OfType(btypes, t)|
    }

    ghost predicate Valid()
      reads this
    {
      Indexed() && Counted() && ReadyOk(readyKeys, serving + readyList)
    }

    constructor ()
      ensures Valid() && btypes == map[] && readyList == [] && serving == []
    {
      index := Index(map[], map[], map[], 0);
      btypes, noKey := map[], {};
      byType := map[ListWait := 0, ZsetWait := 0, StreamWait := 0];
      readyKeys, readyList, serving := {}, [], [];
      new;
      forall t: BType ensures t in byType && byType[t] == |OfType(btypes, t)| {
        assert OfType(btypes, t) == {};
        match t {
          case ListWait => case ZsetWait => case StreamWait =>
        }
      }
    }

    /** signalKeyAsReadyLogic: a key with waiters is queued once. */
    method SignalKeyAsReady(key: K, btype: Option<BType>, deleted: bool)
      requires Valid()
      modifies this`readyKeys, this`readyList
      ensures Valid()
      ensures var queue := btype.Some? && byType[btype.value] > 0 && key !in old(readyKeys) &&
          (if deleted then key in index.counts else key in index.waiters);
        && readyKeys == (if queue then old(readyKeys) + {key} else old(readyKeys))
        && readyList == (if queue then old(readyList) + [key] else old(readyList))
      ensures readyKeys == old(readyKeys) + if Heard(index, byType, Signal(key, btype, deleted)) then {key} else {}
    {
      if btype.None? || byType[btype.value] == 0 {
        return;
      }
      if deleted {
        if key !in index.counts {
          return;
        }
      } else {
        if key !in index.waiters {
          return;
        }
      }
      if key in readyKeys {
        return;
      }
      readyKeys := readyKeys + {key};
      readyList := readyList + [key];
      assert serving + readyList == old(serving + readyList) + [key];
    }

    /** The loop of blockForKeys: the client joins the end of the list of each key it names, once. */
    method JoinLists(c: Client, keys: seq<K>, flag: bool, ghost flags: set<Client>)
      requires IndexOk(index, flags) && (flag <==> c in flags)
      modifies this`index
      ensures IndexOk(index, flags) && index == AddedAll(old(index), c, keys, flag)
    {
      hide IndexOk;
      ghost var start := index;
      assert keys[..0] == [];
      for j := 0 to |keys|
        invariant IndexOk(index, flags) && index == AddedAll(start, c, keys[..j], flag)
      {
        assert keys[..j + 1][..j] == keys[..j];
        AddKeeps(index, flags, c, keys[j], flag);
        if (c, keys[j]) !in index.entries {
          var x, k := index, keys[j];
          var l := if k in x.waiters then x.waiters[k] else [];
          var counts := x.counts;
          if flag {
            counts := if k in counts then counts[k := counts[k] + 1] else counts[k := 1];
          }
          index := Index(x.entries[(c, k) := x.nextId], x.waiters[k := l + [Node(x.nextId, c)]], counts, x.nextId + 1);
        }
      }
      assert keys[..|keys|] == keys;
    }

    /** blockForKeys */
    method BlockForKeys(c: Client, btype: BType, keys: seq<K>, flag: bool)
      requires Valid() && c !in btypes
      modifies this`index, this`btypes, this`noKey, this`byType
      ensures Valid()
      ensures index == AddedAll(old(index), c, keys, flag)
      ensures btypes == old(btypes)[c := btype] && noKey == (if flag then old(noKey) + {c} else old(noKey))
    {
      ghost var flags := if flag then noKey + {c} else noKey;
      FlagTaken(index, noKey, flags, c, btypes.Keys);
      hide IndexOk, AddedAll, Owned;
      JoinLists(c, keys, flag, flags);
      AddedAllOwned(old(index), c, keys, flag, btypes.Keys);
      if flag {
        noKey := noKey + {c};
      }
      TypeAdded(btypes, c, btype);
      hide OfType;
      btypes := btypes[c := btype];
      assert btypes.Keys == old(btypes).Keys + {c};
      byType := byType[btype := byType[btype] + 1];
    }

    /** releaseBlockedEntry, with the entry of the client's own dictionary. */
    method ReleaseBlockedEntry(c: Client, key: K)
      requires IndexOk(index, noKey) && (c, key) in index.entries
      modifies this`index
      ensures index == Released(old(index), c, key, c in noKey) && IndexOk(index, noKey)
    {
      ReleaseKeeps(index, noKey, c, key);
      ReleaseCounts(index, noKey, c, key);
      ghost var i := Position(index, noKey, c, key);
      hide IndexOk;
      var x := index;
      var pos := x.entries[(c, key)];
      var l := Without(x.waiters[key], pos);
      var waiters, counts := x.waiters[key := l], x.counts;
      if |l| == 0 {
        waiters, counts := waiters - {key}, counts - {key};
        assert waiters == x.waiters - {key};
      } else if c in noKey {
        counts := counts[key := counts[key] - 1];
        if counts[key] == 0 {
          counts := counts - {key};
          assert counts == x.counts - {key};
        }
      }
      index := Index(x.entries - {(c, key)}, waiters, counts, x.nextId);
    }

    /** unblockClientWaitingData: the client is released from every key it waits for. */
    method UnblockWaitingData(c: Client)
      requires IndexOk(index, noKey)
      modifies this`index
      ensures IndexOk(index, noKey) && Left(old(index), index, c, {})
    {
      hide IndexOk, Released, Left;
      ghost var start := index;
      var todo := KeysOf(index, c);
      LeftStart(index, c);
      while todo != {}
        invariant IndexOk(index, noKey) && Left(start, index, c, todo)
        invariant forall k :: k in todo ==> (c, k) in start.entries
        decreases |todo|
      {
        var k :| k in todo;
        ghost var before := index;
        LeftHas(start, index, c, todo, k);
        ReleaseOthers(index, noKey, c, k);
        ReleaseBlockedEntry(c, k);
        LeftStep(start, before, index, c, todo, k);
        todo := todo - {k};
      }
    }

    /** unblockClient for a client that waits for data. */
    method UnblockClient(c: Client)
      requires Valid() && c in btypes
      modifies this`index, this`btypes, this`noKey, this`byType
      ensures Valid() && Left(old(index), index, c, {})
      ensures btypes == old(btypes) - {c} && noKey == old(noKey) - {c}
    {
      hide IndexOk;
      UnblockWaitingData(c);
      FlagDropped(old(index), index, noKey, c, btypes.Keys);
      TypeRemoved(btypes, c);
      hide OfType, Left, Owned;
      assert (btypes - {c}).Keys == btypes.Keys - {c};
      byType := byType[btypes[c] := byType[btypes[c]] - 1];
      btypes := btypes - {c};
      noKey := noKey - {c};
    }

    /**
      The command of a client that has just been unblocked: it signals keys, and may block again.
      A key becomes ready exactly if a signal for it is heard in the state the signal finds.
      */
    method Reprocess(c: Client, acts: seq<Act<K>>)
      requires Valid() && c !in btypes
      modifies this`index, this`btypes, this`noKey, this`byType, this`readyKeys, this`readyList
      ensures Valid() && Blocks(old(Now()), Now(), c, acts, FirstReblock(acts))
      ensures FirstReblock(acts) == |acts| ==> byType == old(byType)
      ensures old(readyList) <= readyList && (acts == [] ==> readyList == old(readyList))
      ensures var j := FirstReblock(acts);
        readyKeys == old(readyKeys) + HeardKeys(acts, 0, j, old(index), old(byType)) + HeardKeys(acts, j, |acts|, index, byType)
    {
      hide IndexOk, Owned, OfType, ReadyOk, Counted, AddedAll, HeardKeys;
      var first := FirstReblock(acts);
      ghost var ready := readyKeys;
      NoneHeard(acts, 0, index, byType);
      for i := 0 to first
        invariant Valid() && old(readyList) <= readyList && Now() == old(Now()) && byType == old(byType)
        invariant acts == [] ==> readyList == old(readyList)
        invariant readyKeys == ready + HeardKeys(acts, 0, i, old(index), old(byType))
      {
        HeardNext(acts, 0, i, index, byType);
        SignalKeyAsReady(acts[i].key, acts[i].btype, acts[i].deleted);
      }
      if first == |acts| {
        NoneHeard(acts, first, index, byType);
        return;
      }
      BlockForKeys(c, acts[first].wait, acts[first].keys, acts[first].noKey);
      ghost var mid, x, types := readyKeys, index, byType;
      NoneHeard(acts, first, x, types);
      HeardNext(acts, first, first, x, types);
      for i := first + 1 to |acts|
        invariant Valid() && old(readyList) <= readyList && index == x && byType == types
        invariant Blocks(old(Now()), Now(), c, acts, first)
        invariant readyKeys == mid + HeardKeys(acts, first, i, x, types)
      {
        HeardNext(acts, first, i, x, types);
        if acts[i].Signal? {
          SignalKeyAsReady(acts[i].key, acts[i].btype, acts[i].deleted);
        }
      }
    }

    /**
      unblockClientOnKey: the client is released from all its keys, then its command runs again.
      It is in no list but those its command waits for now, and there it comes last.
      */
    method UnblockClientOnKey(c: Client, key: K, acts: seq<Act<K>>)
      requires Valid() && (c, key) in index.entries
      modifies this`index, this`btypes, this`noKey, this`byType, this`readyKeys, this`readyList
      ensures Valid() && Served(old(Now()), Now(), c, acts)
      ensures (forall i :: 0 <= i < |acts| ==> !acts[i].Reblock?) ==>
        c !in btypes && forall k: K, n :: n in Waiting(index, k) ==> n.client != c
      ensures forall j :: 0 <= j < |acts| && acts[j].Reblock? && (forall i :: 0 <= i < j ==> !acts[i].Reblock?) ==>
        && c in btypes && btypes[c] == acts[j].wait && (c in noKey <==> acts[j].noKey)
        && (forall k: K :: (c, k) in index.entries <==> k in acts[j].keys)
        && (forall k: K :: k in acts[j].keys ==>
              |Waiting(index, k)| == |Others(old(Waiting(index, k)), c)| + 1 && Waiting(index, k)[|Waiting(index, k)| - 1].client == c)
      ensures old(readyList) <= readyList && (acts == [] ==> readyList == old(readyList))
      ensures SignalsQueued(old(Now()), c, acts, old(readyKeys), readyKeys)
    {
      hide IndexOk, OfType, ReadyOk, Released, Left, SignalsQueued, Heard;
      ghost var a := Now();
      ReleaseOthers(index, noKey, c, key);
      ReleaseBlockedEntry(c, key);
      ghost var mid := index;
      UnblockClient(c);
      LeftAll(a.index, mid, index, a.noKey, c, key);
      ghost var z := Now();
      assert Parted(a, z, c);
      hide Parted, Waiting, Owned;
      CountsSay();
      ghost var types := byType;
      Reprocess(c, acts);
      CountsSay();
      ServedIs(a, z, Now(), c, acts);
      SignalsAre(a, z, Now(), types, byType, c, acts, old(readyKeys), readyKeys);
      NoNodes(Now(), c, acts);
      Rejoined(a, Now(), c, acts);
    }

    /** The counters say of each type whether anyone waits for it. */
    lemma CountsSay()
      requires Counted()
      ensures CountsSeen(btypes, byType)
    {
      forall t: BType ensures t in byType && (byType[t] > 0 <==> exists f :: f in btypes && btypes[f] == t) {
        assert byType[t] == |OfType(btypes, t)|;
        if f :| f in btypes && btypes[f] == t {
          assert f in OfType(btypes, t);
        }
        if byType[t] > 0 {
          var f :| f in OfType(btypes, t);
        }
      }
    }

    /**
      handleClientsBlockedOnKey: the list iterator and the initial count of the
      original. A pass visits exactly the clients that wait at its start, each once, in
      the order in which they blocked. Those whose type the visit found, and those who
      wait for the key to go, are served and leave; all others stay where they are, and
      behind them stand only served clients that blocked again.
      */
    method HandleKey(key: K, supply: seq<Visit<K>>) returns (rest: seq<Visit<K>>)
      requires Valid()
      modifies this`index, this`btypes, this`noKey, this`byType, this`readyKeys, this`readyList
      ensures Valid() && PassDone(old(Now()), Now(), key, supply)
      ensures var nodes := old(Waiting(index, key));
        && rest == (if |nodes| <= |supply| then supply[|nodes|..] else [])
        && PassSignals(old(Now()), nodes, supply, |nodes|, old(readyKeys), readyKeys)
        && forall i :: 0 <= i < |nodes| ==>
             var c, visit := nodes[i].client, if i < |supply| then supply[i] else Visit(None, []);
             && c in old(btypes)
             && (nodes[i] !in Waiting(index, key) <==> visit.found == Some(Some(old(btypes)[c])) || c in old(noKey))
             && (nodes[i] !in Waiting(index, key) && (forall j :: 0 <= j < |visit.acts| ==> !visit.acts[j].Reblock?) ==>
                   c !in btypes && forall k: K :: (c, k) !in index.entries)
      ensures var nodes := old(Waiting(index, key));
        forall n :: n in Waiting(index, key) && n !in nodes ==>
          exists i :: 0 <= i < |nodes| && nodes[i].client == n.client && nodes[i] !in Waiting(index, key)
      ensures |rest| <= |supply| && old(readyList) <= readyList
      ensures |rest| == |supply| ==> readyList == old(readyList)
    {
      hide IndexOk, OfType, ReadyOk, Owned, Counted, Handled, PassSignals, Pass;
      ghost var a := Now();
      Clients(index, noKey, btypes.Keys, key);
      HandledNone(a, Waiting(index, key), supply);
      SignalsNone(a, Waiting(index, key), supply, readyKeys);
      rest := supply;
      if key in index.waiters {
        rest := VisitWaiters(key, supply);
      }
      PassMeans(a, Now(), key, supply);
      PassAdds(a, Now(), key, supply);
    }

    /** The loop over the list of a key. */
    method VisitWaiters(key: K, supply: seq<Visit<K>>) returns (rest: seq<Visit<K>>)
      requires Valid() && key in index.waiters
      modifies this`index, this`btypes, this`noKey, this`byType, this`readyKeys, this`readyList
      ensures Valid() && PassDone(old(Now()), Now(), key, supply)
      ensures var nodes := old(Waiting(index, key));
        && rest == (if |nodes| <= |supply| then supply[|nodes|..] else [])
        && PassSignals(old(Now()), nodes, supply, |nodes|, old(readyKeys), readyKeys)
      ensures old(readyList) <= readyList && (|rest| == |supply| ==> readyList == old(readyList))
    {
      hide IndexOk, OfType, ReadyOk, Owned, Others, Pass, Counted, Handled, PassSignals, Served, SignalsQueued, Suits;
      ghost var a, nodes, i := Now(), Waiting(index, key), 0;
      rest := supply;
      Clients(index, noKey, btypes.Keys, key);
      HandledNone(a, nodes, supply);
      SignalsNone(a, nodes, supply, readyKeys);
      FirstNode(index, noKey, key);
      PassStart(nodes);
      var next := Some(index.waiters[key][0].id);
      var count := |index.waiters[key]|;
      while next.Some? && count > 0
        invariant 0 <= i <= |nodes| && count == |nodes| - i && Valid()
        invariant Pass(nodes, i, Waiting(index, key)) && Handled(a, Now(), nodes, supply, i)
        invariant PassSignals(a, nodes, supply, i, old(readyKeys), readyKeys)
        invariant i < |nodes| ==> next == Some(nodes[i].id)
        invariant rest == (if i <= |supply| then supply[i..] else [])
        invariant old(readyList) <= readyList
        invariant |rest| == |supply| ==> readyList == old(readyList)
        decreases count
      {
        var live := Waiting(index, key);
        ghost var at := PassHere(nodes, i, live);
        LiveList(index, noKey, btypes.Keys, key, at);
        var pos := PositionOf(live, next.value);
        var receiver := live[pos].client;
        next := if pos + 1 < |live| then Some(live[pos + 1].id) else None;
        count := count - 1;
        var visit := if rest != [] then rest[0] else Visit(None, []);
        rest := if rest != [] then rest[1..] else [];
        ghost var b, ready := Now(), readyKeys;
        assert visit == VisitAt(supply, i);
        var served := Serve(receiver, key, visit);
        VisitStep(a, b, Now(), key, nodes, supply, i, at, served, old(readyKeys), ready, readyKeys);
        i := i + 1;
      }
    }

    /** One visit: the client is served if the value suits it, or if it wants to know that the key is gone. */
    method Serve(c: Client, key: K, visit: Visit<K>) returns (served: bool)
      requires Valid() && (c, key) in index.entries && c in btypes
      modifies this`index, this`btypes, this`noKey, this`byType, this`readyKeys, this`readyList
      ensures Valid() && (served <==> Suits(old(Now()), c, visit))
      ensures served ==> Served(old(Now()), Now(), c, visit.acts)
      ensures served ==> SignalsQueued(old(Now()), c, visit.acts, old(readyKeys), readyKeys)
      ensures !served ==> Now() == old(Now()) && readyKeys == old(readyKeys)
      ensures old(readyList) <= readyList && (visit.acts == [] ==> readyList == old(readyList))
    {
      hide IndexOk, OfType, ReadyOk, Owned, Others, Counted, Waiting, Served, SignalsQueued;
      served := (visit.found.Some? && visit.found.value == Some(btypes[c])) || c in noKey;
      if served {
        UnblockClientOnKey(c, key, visit.acts);
      }
    }

    /** One key of the list being drained: it may be signalled again from here on, and its waiters are visited. */
    method HandleReady(key: K, supply: seq<Visit<K>>) returns (rest: seq<Visit<K>>)
      requires Valid() && serving != [] && serving[0] == key
      modifies this
      ensures Valid() && serving == old(serving)[1..] && PassDone(old(Now()), Now(), key, supply)
      ensures rest == Unused(PassOver(key, supply, old(Now()), Now())) && |rest| <= |supply|
      ensures old(readyList) <= readyList && (|rest| == |supply| ==> readyList == old(readyList))
    {
      hide IndexOk, OfType, Owned, ReadyOk, PassDone, PassSignals;
      TakeFirst(readyKeys, serving, readyList);
      readyKeys := readyKeys - {key};
      serving := serving[1..];
      rest := HandleKey(key, supply);
    }

    /** Drains the list that was swapped out, one pass for each key. */
    method DrainList(keys: seq<K>, supply: seq<Visit<K>>) returns (rest: seq<Visit<K>>, ghost passes: seq<PassOver<K>>)
      requires Valid() && serving == keys
      modifies this
      ensures Valid() && serving == [] && KeysOfPasses(passes) == keys
      ensures Chain(old(Now()), Now(), passes, supply, rest) && |rest| <= |supply|
      ensures old(readyList) <= readyList && (|rest| == |supply| ==> readyList == old(readyList))
    {
      hide IndexOk, OfType, Owned, Waiting, ReadyOk, Chain, PassDone, Unused;
      rest, passes := supply, [];
      ChainNone(Now(), supply);
      assert KeysOfPasses(passes) + keys == keys;
      hide KeysOfPasses;
      var l := keys;
      while |l| != 0
        invariant Valid() && serving == l && KeysOfPasses(passes) + l == keys
        invariant Chain(old(Now()), Now(), passes, supply, rest)
        invariant |rest| <= |supply| && old(readyList) <= readyList
        invariant |rest| == |supply| ==> readyList == old(readyList)
        decreases |l|
      {
        var key := l[0];
        ghost var b, visits := Now(), rest;
        rest := HandleReady(key, rest);
        assert l == [key] + l[1..];
        l := l[1..];
        ChainMore(old(Now()), b, Now(), passes, supply, visits, rest, key);
        KeysMore(passes, PassOver(key, visits, b, Now()));
        passes := passes + [PassOver(key, visits, b, Now())];
        assert KeysOfPasses(passes) + l == keys;
      }
    }

    /**
      handleClientsBlockedOnKeys: the ready list is swapped out and drained, as often as
      serving clients makes more keys ready. The keys that were ready come first, in their
      order; every key drained gets one pass over those who wait for it then, and nothing
      else happens to the clients.
      */
    method HandleClientsBlockedOnKeys(supply: seq<Visit<K>>) returns (rest: seq<Visit<K>>, ghost passes: seq<PassOver<K>>)
      requires Valid() && serving == []
      modifies this
      ensures Valid() && serving == [] && readyList == [] && readyKeys == {}
      ensures Chain(old(Now()), Now(), passes, supply, rest) && old(readyList) <= KeysOfPasses(passes)
    {
      hide IndexOk, OfType, Owned, Waiting, ReadyOk, Chain, PassDone, Unused;
      rest, passes := supply, [];
      ChainNone(Now(), supply);
      assert KeysOfPasses(passes) + readyList == readyList;
      hide KeysOfPasses;
      while |readyList| != 0
        invariant Valid() && serving == [] && old(readyList) <= KeysOfPasses(passes) + readyList
        invariant Chain(old(Now()), Now(), passes, supply, rest)
        decreases |rest|, |readyList|
      {
        var l := readyList;
        ghost var b, visits, more := Now(), rest, [];
        assert serving + readyList == l && l + [] == l;
        readyList, serving := [], l;
        rest, more := DrainList(l, rest);
        ChainAppend(old(Now()), b, Now(), passes, more, supply, visits, rest);
        KeysAppend(passes, more);
        passes := passes + more;
        assert KeysOfPasses(passes) <= KeysOfPasses(passes) + readyList;
      }
      assert KeysOfPasses(passes) + readyList == KeysOfPasses(passes);
      NothingQueued(readyKeys, serving + readyList);
    }
  }

  // ---- passes ----

  /** A whole pass for `key` from `a` to `b`. */
  ghost predicate PassDone<K(!new)>(a: Snap<K>, b: Snap<K>, key: K, supply: seq<Visit<K>>) {
    var nodes := Waiting(a.index, key);
    Handled(a, b, nodes, supply, |nodes|)
  }

  /** One pass of a drain: its key, the visits ahead of it, and the clients before and after. */
  datatype PassOver<K> = PassOver(key: K, visits: seq<Visit<K>>, before: Snap<K>, after: Snap<K>)

  ghost function KeysOfPasses<K>(passes: seq<PassOver<K>>): (r: seq<K>)
    ensures |r| == |passes| && forall i :: 0 <= i < |r| ==> r[i] == passes[i].key
  {
    seq(|passes|, i requires 0 <= i < |passes| => passes[i].key)
  }

  lemma KeysMore<K>(passes: seq<PassOver<K>>, p: PassOver<K>)
    ensures KeysOfPasses(passes + [p]) == KeysOfPasses(passes) + [p.key]
  {
  }

  lemma KeysAppend<K>(a: seq<PassOver<K>>, b: seq<PassOver<K>>)
    ensures KeysOfPasses(a + b) == KeysOfPasses(a) + KeysOfPasses(b)
  {
  }

  /** The visits left when a pass over the waiters of the key has used its own. */
  ghost function Unused<K>(pass: PassOver<K>): seq<Visit<K>> {
    var n := |Waiting(pass.before.index, pass.key)|;
    if n <= |pass.visits| then pass.visits[n..] else []
  }

  /** The passes lead from `a` to `b`, each starts where the one before ended, and each does what a pass does. */
  ghost predicate Chain<K(!new)>(a: Snap<K>, b: Snap<K>, passes: seq<PassOver<K>>, supply: seq<Visit<K>>, rest: seq<Visit<K>>) {
    if passes == [] then a == b && supply == rest
    else
      && passes[0].before == a && passes[0].visits == supply
      && passes[|passes| - 1].after == b && rest == Unused(passes[|passes| - 1])
      && (forall i :: 0 <= i < |passes| ==> PassDone(passes[i].before, passes[i].after, passes[i].key, passes[i].visits))
      && (forall i :: 0 <= i < |passes| - 1 ==>
            passes[i + 1].before == passes[i].after && passes[i + 1].visits == Unused(passes[i]))
  }

  lemma ChainNone<K(!new)>(a: Snap<K>, supply: seq<Visit<K>>)
    ensures Chain(a, a, [], supply, supply)
  {
  }

  lemma ChainMore<K(!new)>(a: Snap<K>, b: Snap<K>, c: Snap<K>, passes: seq<PassOver<K>>, supply: seq<Visit<K>>,
                           visits: seq<Visit<K>>, rest: seq<Visit<K>>, key: K)
    requires Chain(a, b, passes, supply, visits) && PassDone(b, c, key, visits)
    requires rest == Unused(PassOver(key, visits, b, c))
    ensures Chain(a, c, passes + [PassOver(key, visits, b, c)], supply, rest)
  {
    hide PassDone, Unused;
  }

  lemma ChainAppend<K(!new)>(a: Snap<K>, b: Snap<K>, c: Snap<K>, first: seq<PassOver<K>>, more: seq<PassOver<K>>,
                             supply: seq<Visit<K>>, visits: seq<Visit<K>>, rest: seq<Visit<K>>)
    requires Chain(a, b, first, supply, visits) && Chain(b, c, more, visits, rest)
    ensures Chain(a, c, first + more, supply, rest)
  {
    hide PassDone, Unused;
    if more == [] {
      assert first + more == first;
    } else if first == [] {
      assert first + more == more;
    }
  }

  /** What a pass means for each node that stood in the list. */
  lemma PassMeans<K(!new)>(a: Snap<K>, b: Snap<K>, key: K, supply: seq<Visit<K>>)
    requires IndexOk(a.index, a.noKey) && IndexOk(b.index, b.noKey) && PassDone(a, b, key, supply)
    requires var nodes := Waiting(a.index, key); DistinctClients(nodes) && forall i :: 0 <= i < |nodes| ==> nodes[i].client in a.btypes
    ensures var nodes := Waiting(a.index, key);
      forall i :: 0 <= i < |nodes| ==>
        var c, visit := nodes[i].client, if i < |supply| then supply[i] else Visit(None, []);
        && (nodes[i] !in Waiting(b.index, key) <==> visit.found == Some(Some(a.btypes[c])) || c in a.noKey)
        && (nodes[i] !in Waiting(b.index, key) && (forall j :: 0 <= j < |visit.acts| ==> !visit.acts[j].Reblock?) ==>
              c !in b.btypes && forall k: K :: (c, k) !in b.index.entries)
  {
    var nodes := Waiting(a.index, key);
    hide IndexOk, Waiting, Outside, SameFor;
    forall i | 0 <= i < |nodes| ensures
      var c, visit := nodes[i].client, if i < |supply| then supply[i] else Visit(None, []);
      && (nodes[i] !in Waiting(b.index, key) <==> visit.found == Some(Some(a.btypes[c])) || c in a.noKey)
      && (nodes[i] !in Waiting(b.index, key) && (forall j :: 0 <= j < |visit.acts| ==> !visit.acts[j].Reblock?) ==>
            c !in b.btypes && forall k: K :: (c, k) !in b.index.entries)
    {
      HandledStays(a, b, key, supply, i);
      GoneIff(a, nodes, supply, i);
    }
  }

  /** Whoever is new in the list was served in the pass. */
  lemma PassAdds<K(!new)>(a: Snap<K>, b: Snap<K>, key: K, supply: seq<Visit<K>>)
    requires IndexOk(a.index, a.noKey) && IndexOk(b.index, b.noKey) && PassDone(a, b, key, supply)
    requires DistinctClients(Waiting(a.index, key))
    ensures var nodes := Waiting(a.index, key);
      forall n :: n in Waiting(b.index, key) && n !in nodes ==>
        exists i :: 0 <= i < |nodes| && nodes[i].client == n.client && nodes[i] !in Waiting(b.index, key)
  {
    var nodes := Waiting(a.index, key);
    forall n | n in Waiting(b.index, key) && n !in nodes
      ensures exists i :: 0 <= i < |nodes| && nodes[i].client == n.client && nodes[i] !in Waiting(b.index, key)
    {
      NewIsGone(a, b, key, supply, n);
      var i :| 0 <= i < |nodes| && Suits(a, nodes[i].client, VisitAt(supply, i)) && nodes[i].client == n.client;
      hide IndexOk, Waiting, Handled;
      HandledStays(a, b, key, supply, i);
    }
  }

  lemma NewIsGone<K(!new)>(a: Snap<K>, b: Snap<K>, key: K, supply: seq<Visit<K>>, n: Node)
    requires IndexOk(a.index, a.noKey) && IndexOk(b.index, b.noKey) && PassDone(a, b, key, supply)
    requires n in Waiting(b.index, key) && n !in Waiting(a.index, key)
    ensures var nodes := Waiting(a.index, key); n.client in Gone(a, nodes, supply, |nodes|)
  {
    var nodes := Waiting(a.index, key);
    hide Gone, Outside, Reprocessed, Newer;
    assert ListOk(b.index, key);
    assert (n.client, key) in a.index.entries ==> EntryOk(a.index, n.client, key);
    assert n.client !in Gone(a, nodes, supply, |nodes|) ==> SameFor(a, b, n.client);
  }

  /** The clients of a list are distinct and blocked. */
  lemma Clients<K(!new)>(x: Index<K>, noKey: set<Client>, clients: set<Client>, k: K)
    requires IndexOk(x, noKey) && Owned(x, clients)
    ensures DistinctClients(Waiting(x, k))
    ensures forall i :: 0 <= i < |Waiting(x, k)| ==> Waiting(x, k)[i].client in clients
  {
    if k in x.waiters {
      assert ListOk(x, k);
    }
  }

  lemma SignalsNone<K(!new)>(a: Snap<K>, nodes: seq<Node>, supply: seq<Visit<K>>, ready: set<K>)
    ensures PassSignals(a, nodes, supply, 0, ready, ready)
  {
  }

  /** A client that has not been visited waits as at the start of the pass. */
  lemma StillSuits<K(!new)>(a: Snap<K>, b: Snap<K>, nodes: seq<Node>, supply: seq<Visit<K>>, i: nat)
    requires i < |nodes| && DistinctClients(nodes) && Handled(a, b, nodes, supply, i)
    ensures forall visit :: Suits(a, nodes[i].client, visit) <==> Suits(b, nodes[i].client, visit)
  {
    NotGoneYet(a, nodes, supply, i);
    assert SameFor(a, b, nodes[i].client);
  }

  /** One visit takes the pass one node further. */
  lemma VisitStep<K(!new)>(a: Snap<K>, b: Snap<K>, b': Snap<K>, key: K, nodes: seq<Node>, supply: seq<Visit<K>>, i: nat, at: nat,
                           served: bool, first: set<K>, ready: set<K>, now: set<K>)
    requires i < |nodes| && DistinctClients(nodes) && Handled(a, b, nodes, supply, i)
    requires PassSignals(a, nodes, supply, i, first, ready)
    requires var live := Waiting(b.index, key);
      PassAt(nodes, i, live, at) && at < |live| && Others(live, nodes[i].client) == live[..at] + live[at + 1..]
    requires served <==> Suits(b, nodes[i].client, VisitAt(supply, i))
    requires served ==> Served(b, b', nodes[i].client, VisitAt(supply, i).acts)
    requires served ==> SignalsQueued(b, nodes[i].client, VisitAt(supply, i).acts, ready, now)
    requires !served ==> b' == b && now == ready
    ensures Handled(a, b', nodes, supply, i + 1) && PassSignals(a, nodes, supply, i + 1, first, now)
    ensures Pass(nodes, i + 1, Waiting(b'.index, key))
  {
    StillSuits(a, b, nodes, supply, i);
    hide Handled, PassSignals, Pass, PassAt, Others, Served, SignalsQueued, Suits, Waiting;
    if served {
      HandledServe(a, b, b', nodes, supply, i);
      SignalsServe(a, b, nodes, supply, i, first, ready, now);
      ServedList(b, b', nodes[i].client, VisitAt(supply, i).acts, key);
      PassStep(nodes, i, Waiting(b.index, key), at, Waiting(b'.index, key));
    } else {
      HandledSkip(a, b, nodes, supply, i);
      SignalsSkip(a, nodes, supply, i, first, now);
      PassStep(nodes, i, Waiting(b.index, key), at, Waiting(b.index, key));
    }
  }

  lemma ServedList<K(!new)>(a: Snap<K>, b: Snap<K>, c: Client, acts: seq<Act<K>>, k: K)
    requires Served(a, b, c, acts)
    ensures Others(Waiting(a.index, k), c) <= Waiting(b.index, k)
  {
    hide Reprocessed, SameFor, Others, Waiting;
    assert ListStep(a.index, b.index, c, k);
  }

  ghost predicate CountsSeen(btypes: map<Client, BType>, byType: map<BType, nat>) {
    forall t: BType :: t in byType && (byType[t] > 0 <==> exists f :: f in btypes && btypes[f] == t)
  }

  /** The signals of a served command reach everyone else who waits for them. */
  lemma SignalsAre<K(!new)>(a: Snap<K>, z: Snap<K>, b: Snap<K>, types: map<BType, nat>, now: map<BType, nat>,
                            c: Client, acts: seq<Act<K>>, ready: set<K>, keys: set<K>)
    requires Parted(a, z, c) && Served(a, b, c, acts)
    requires IndexOk(z.index, z.noKey) && IndexOk(b.index, b.noKey) && CountsSeen(z.btypes, types) && CountsSeen(b.btypes, now)
    requires var j := FirstReblock(acts);
      keys == ready + HeardKeys(acts, 0, j, z.index, types) + HeardKeys(acts, j, |acts|, b.index, now)
    ensures SignalsQueued(a, c, acts, ready, keys)
  {
    HeardAreSignals(acts, FirstReblock(acts), z.index, types, b.index, now);
    hide IndexOk, Reprocessed, ListStep, Heard, Others;
    forall i | 0 <= i < |acts| && Awaited(a, {c}, acts[i]) ensures acts[i].key in keys {
      var d: Client :| d !in {c} && d in a.btypes && a.btypes[d] == acts[i].btype.value;
      var e: Client :| e !in {c} && (e, acts[i].key) in a.index.entries && (acts[i].deleted ==> e in a.noKey);
      assert SameFor(a, b, d) && SameFor(a, b, e);
      AwaitedHeard(z, types, acts[i], d, e);
      AwaitedHeard(b, now, acts[i], d, e);
    }
  }

  /** A client that blocks again waits for what its command names, last in every list. */
  lemma Rejoined<K(!new)>(a: Snap<K>, b: Snap<K>, c: Client, acts: seq<Act<K>>)
    requires Served(a, b, c, acts)
    ensures forall j :: 0 <= j < |acts| && acts[j].Reblock? && (forall i :: 0 <= i < j ==> !acts[i].Reblock?) ==>
      && c in b.btypes && b.btypes[c] == acts[j].wait && (c in b.noKey <==> acts[j].noKey)
      && (forall k: K :: (c, k) in b.index.entries <==> k in acts[j].keys)
      && (forall k: K :: k in acts[j].keys ==>
            var now := Waiting(b.index, k);
            |now| == |Others(Waiting(a.index, k), c)| + 1 && now[|now| - 1].client == c)
  {
    hide SameFor, Others, Waiting;
    var f := FirstReblock(acts);
    forall j | 0 <= j < |acts| && acts[j].Reblock? && (forall i :: 0 <= i < j ==> !acts[i].Reblock?) ensures j == f {
      assert j <= f && f <= j;
    }
    forall k: K | (c, k) in b.index.entries ensures
      var now := Waiting(b.index, k);
      |now| == |Others(Waiting(a.index, k), c)| + 1 && now[|now| - 1].client == c
    {
      assert ListStep(a.index, b.index, c, k);
    }
  }

  lemma HeardAreSignals<K(!new)>(acts: seq<Act<K>>, j: nat, x: Index<K>, types: map<BType, nat>, y: Index<K>, now: map<BType, nat>)
    requires j <= |acts|
    ensures forall k: K :: k in HeardKeys(acts, 0, j, x, types) || k in HeardKeys(acts, j, |acts|, y, now) ==> Signalled(acts, k)
  {
  }

  /** A client that does not block again stands in no list. */
  lemma NoNodes<K(!new)>(b: Snap<K>, c: Client, acts: seq<Act<K>>)
    requires IndexOk(b.index, b.noKey) && Reprocessed(b, c, acts)
    ensures (forall i :: 0 <= i < |acts| ==> !acts[i].Reblock?) ==>
      c !in b.btypes && forall k: K, n :: n in Waiting(b.index, k) ==> n.client != c
  {
    if forall i :: 0 <= i < |acts| ==> !acts[i].Reblock? {
      forall k: K, n | n in Waiting(b.index, k) ensures n.client != c {
        assert ListOk(b.index, k);
      }
    }
  }

  /** Where a pass stands: the unvisited nodes are still in the list, in order, one after the other. */
  ghost predicate Pass(nodes: seq<Node>, i: int, live: seq<Node>) {
    0 <= i <= |nodes| && exists at :: PassAt(nodes, i, live, at)
  }

  ghost predicate PassAt(nodes: seq<Node>, i: int, live: seq<Node>, at: int)
    requires 0 <= i <= |nodes|
  {
    0 <= at && at + (|nodes| - i) <= |live| && live[at..at + (|nodes| - i)] == nodes[i..]
  }

  lemma PassStart(nodes: seq<Node>)
    ensures Pass(nodes, 0, nodes)
  {
    assert PassAt(nodes, 0, nodes, 0);
  }

  lemma PassHere(nodes: seq<Node>, i: nat, live: seq<Node>) returns (at: nat)
    requires i < |nodes| && Pass(nodes, i, live)
    ensures PassAt(nodes, i, live, at) && at < |live| && live[at] == nodes[i]
    ensures i + 1 < |nodes| ==> at + 1 < |live| && live[at + 1] == nodes[i + 1]
  {
    at :| PassAt(nodes, i, live, at);
    var part := live[at..at + (|nodes| - i)];
    assert part[0] == nodes[i..][0];
    assert i + 1 < |nodes| ==> part[1] == nodes[i..][1];
  }

  lemma PassStep(nodes: seq<Node>, i: nat, live: seq<Node>, at: nat, now: seq<Node>)
    requires i < |nodes| && PassAt(nodes, i, live, at) && at < |live|
    requires now == live || live[..at] + live[at + 1..] <= now
    ensures Pass(nodes, i + 1, now)
  {
    var n := |nodes| - i;
    assert nodes[i + 1..] == nodes[i..][1..];
    if now == live {
      assert now[at + 1..at + n] == live[at..at + n][1..];
      assert PassAt(nodes, i + 1, now, at + 1);
    } else {
      var short := live[..at] + live[at + 1..];
      assert now[at..at + n - 1] == short[at..at + n - 1];
      assert short[at..at + n - 1] == live[at..at + n][1..];
      assert PassAt(nodes, i + 1, now, at);
    }
  }

  /** The position of the node, which is in the list. */
  function PositionOf(nodes: seq<Node>, id: nat): (i: nat)
    requires exists j :: 0 <= j < |nodes| && nodes[j].id == id
    ensures i < |nodes| && nodes[i].id == id
  {
    if nodes[0].id == id then 0 else 1 + PositionOf(nodes[1..], id)
  }

  lemma FirstNode<K(!new)>(x: Index<K>, noKey: set<Client>, k: K)
    requires IndexOk(x, noKey) && k in x.waiters
    ensures x.waiters[k] != []
  {
    assert ListOk(x, k);
  }

  /** The node at `i` of a list: its client waits for the key, and stands nowhere else in the list. */
  lemma LiveList<K(!new)>(x: Index<K>, noKey: set<Client>, clients: set<Client>, k: K, i: nat)
    requires IndexOk(x, noKey) && Owned(x, clients) && i < |Waiting(x, k)|
    ensures var live := Waiting(x, k);
      && PositionOf(live, live[i].id) == i && (live[i].client, k) in x.entries && live[i].client in clients
      && Others(live, live[i].client) == live[..i] + live[i + 1..]
  {
    assert ListOk(x, k);
    OnePlace(x, k, i);
    OthersAt(x.waiters[k], i);
  }

  lemma NothingQueued<K(!new)>(readyKeys: set<K>, queued: seq<K>)
    requires ReadyOk(readyKeys, queued) && queued == []
    ensures readyKeys == {}
  {
    assert forall k :: k !in readyKeys;
  }

  /** Taking the first key of the drained list out of both sides keeps them in step. */
  lemma TakeFirst<K(!new)>(readyKeys: set<K>, l: seq<K>, readyList: seq<K>)
    requires ReadyOk(readyKeys, l + readyList) && l != []
    ensures ReadyOk(readyKeys - {l[0]}, l[1..] + readyList)
  {
    var all, rest := l + readyList, l[1..] + readyList;
    assert rest == all[1..];
    assert all == [l[0]] + rest;
    assert forall j :: 0 <= j < |rest| ==> rest[j] == all[j + 1] && all[0] != all[j + 1];
  }

  lemma LeftHas<K(!new)>(x: Index<K>, y: Index<K>, c: Client, todo: set<K>, k: K)
    requires Left(x, y, c, todo) && k in todo && (c, k) in x.entries
    ensures (c, k) in y.entries
  {
  }

  lemma FlagTaken<K(!new)>(x: Index<K>, noKey: set<Client>, flags: set<Client>, c: Client, clients: set<Client>)
    requires IndexOk(x, noKey) && Owned(x, clients) && c !in clients && noKey <= clients
    requires flags == noKey || flags == noKey + {c}
    ensures IndexOk(x, flags)
  {
    FlagMayChange(x, noKey, flags);
  }

  lemma FlagDropped<K(!new)>(x: Index<K>, y: Index<K>, noKey: set<Client>, c: Client, clients: set<Client>)
    requires Left(x, y, c, {}) && IndexOk(y, noKey) && Owned(x, clients)
    ensures IndexOk(y, noKey - {c}) && Owned(y, clients - {c})
  {
    FlagMayChange(y, noKey, noKey - {c});
  }

  lemma {:induction false} AddedAllOwned<K(!new)>(x: Index<K>, c: Client, keys: seq<K>, flag: bool, clients: set<Client>)
    requires Owned(x, clients)
    ensures Owned(AddedAll(x, c, keys, flag), clients + {c})
    decreases |keys|
  {
    if keys != [] {
      AddedAllOwned(x, c, keys[..|keys| - 1], flag, clients);
    }
  }

  lemma TypeAdded(btypes: map<Client, BType>, c: Client, t: BType)
    requires c !in btypes
    ensures |OfType(btypes[c := t], t)| == |OfType(btypes, t)| + 1
    ensures forall u: BType :: u != t ==> |OfType(btypes[c := t], u)| == |OfType(btypes, u)|
  {
    assert OfType(btypes[c := t], t) == OfType(btypes, t) + {c};
    forall u: BType | u != t ensures |OfType(btypes[c := t], u)| == |OfType(btypes, u)| {
      assert OfType(btypes[c := t], u) == OfType(btypes, u);
    }
  }

  lemma TypeRemoved(btypes: map<Client, BType>, c: Client)
    requires c in btypes
    ensures |OfType(btypes - {c}, btypes[c])| == |OfType(btypes, btypes[c])| - 1
    ensures forall u: BType :: u != btypes[c] ==> |OfType(btypes - {c}, u)| == |OfType(btypes, u)|
  {
    assert OfType(btypes - {c}, btypes[c]) == OfType(btypes, btypes[c]) - {c};
    forall u: BType | u != btypes[c] ensures |OfType(btypes - {c}, u)| == |OfType(btypes, u)| {
      assert OfType(btypes - {c}, u) == OfType(btypes, u);
    }
  }

  /** A signal is lost neither to the type counter nor to the index: a waiter of the type makes the key ready. */
  lemma SignalReaches<K(!new)>(x: Index<K>, noKey: set<Client>, btypes: map<Client, BType>, c: Client, k: K)
    requires IndexOk(x, noKey) && (c, k) in x.entries && c in btypes
    ensures |OfType(btypes, btypes[c])| > 0 && k in x.waiters && (c in noKey ==> k in x.counts)
  {
    assert c in OfType(btypes, btypes[c]);
    ReleaseCounts(x, noKey, c, k);
    var i := Position(x, noKey, c, k);
  }
}
