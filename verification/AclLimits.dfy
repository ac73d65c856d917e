/**
  Where the replay of ACL rules stops being exact, and how command ids are given out.
  */
module AclLimits {
  import opened Wrappers
  import opened SdsText
  import opened AclTable
  import opened AclRules
  import opened AclText

  // ---- first arguments with blanks or quotes ----

  predicate AllBare(s: string) { forall i :: 0 <= i < |s| ==> BareChar(s[i]) }

  lemma BareArg(t: Table, name: string, arg: string)
    requires NamesOk(t) && name in t.commands
    ensures Bare(RuleText(true, FirstArg(name, arg))) <==> AllBare(arg)
  {
    var s := RuleText(true, FirstArg(name, arg));
    assert s == ['+'] + name + ['|'] + arg;
    assert Word(name);
    var n := |name| + 2;
    assert forall i :: 0 <= i < |arg| ==> s[n + i] == arg[i];
    assert forall i :: n <= i < |s| ==> s[i] == arg[i - n];
  }

  /** Words that are not the rule's own text never bring its first argument in. */
  lemma {:induction false} RunWithout(t: Table, p: Perm, words: seq<string>, name: string, arg: string)
    requires TableOk(t) && Known(t, FirstArg(name, arg))
    requires !HasFirst(p, t.commands[name].id, arg)
    requires forall w <- words :: ToLower(w) != RuleText(true, FirstArg(name, arg))
    ensures var q := Run(t, p, words); q.Some? ==> !HasFirst(q.value, t.commands[name].id, arg)
    decreases |words|
  {
    hide NamesOk, IdsOk, Read, Effect, HasFirst, ToLower, RuleText, Written, Do, Lowered;
    if words != [] {
      var short, op := words[..|words| - 1], words[|words| - 1];
      RunWithout(t, p, short, name, arg);
      var q := Run(t, p, short);
      if q.Some? {
        DoWithout(t, q.value, op, name, arg);
      }
    }
  }

  lemma DoWithout(t: Table, p: Perm, op: string, name: string, arg: string)
    requires TableOk(t) && Known(t, FirstArg(name, arg))
    requires !HasFirst(p, t.commands[name].id, arg)
    requires ToLower(op) != RuleText(true, FirstArg(name, arg))
    ensures var q := Do(t, p, op); q.Some? ==> !HasFirst(q.value, t.commands[name].id, arg)
  {
    hide Read, ToLower, RuleText, Effect, Written, Lowered, Holds, NamesOk;
    var r := Read(t, ToLower(op));
    if r.Rule? {
      LowerTwice(op);
      ReadKnown(t, ToLower(op));
      if r.target.FirstArg? {
        WrittenLower(t, op);
      }
      var c := First(t.commands[name].id, arg);
      EffectAt(t, p, r, Written(op), c);
      assert r.target.FirstArg? ==> r.target != FirstArg(name, arg);
    }
  }

  /** The text of a history splits and runs again to the same permissions. */
  ghost predicate TextReplays(t: Table, log: Log, p: Perm)
    requires forall i :: 0 <= i < |log| ==> log[i].Rule?
  {
    var words := SplitArgs(Join(Words(log)));
    words.Some? && Run(t, Base(RESERVED in p.allowed), words.value).Some? &&
    Same(Run(t, Base(RESERVED in p.allowed), words.value).value, p)
  }

  ghost predicate BareLog(log: Log) {
    forall i :: 0 <= i < |log| ==> log[i].Rule? && Bare(RuleText(log[i].allow, log[i].target))
  }

  lemma BareReplays(t: Table, log: Log, p: Perm)
    requires TableOk(t) && LogOk(t, log) && BareLog(log) && Explains(t, RESERVED in p.allowed, log, p)
    ensures TextReplays(t, log, p)
  {
    hide TableOk, Known, Explains, Run, Same, Bare, RuleText, Base;
    SplitJoin(Words(log));
    ReplayGivesSame(t, log, p);
  }

  lemma KeptIsBare(log: Log, neu: string)
    requires BareLog(log)
    ensures BareLog(Kept(log, neu))
  {
    hide Bare, RuleText, Body;
    var kept := Kept(log, neu);
    forall i | 0 <= i < |kept| ensures Bare(RuleText(kept[i].allow, kept[i].target)) {
      assert kept[i] in log;
    }
  }

  /** None of the words the text splits into is the rule again. */
  lemma SplitLosesRule(t: Table, kept: Log, r: Request, w: string)
    requires TableOk(t) && LogOk(t, kept) && BareLog(kept) && KnownRule(t, r)
    requires !Bare(RuleText(r.allow, r.target))
    requires var words := SplitArgs(Join(Words(kept + [r]))); words.Some? && w in words.value
    ensures ToLower(w) != RuleText(r.allow, r.target)
  {
    hide TableOk, NamesOk, Known, Bare, RuleText, SplitArgs, Join, ToLower;
    var text := RuleText(r.allow, r.target);
    assert Words(kept + [r]) == Words(kept) + [text];
    SplitJoinThen(Words(kept), text);
    SplitShrinks(text);
    if w in Words(kept) {
      var i :| 0 <= i < |kept| && Words(kept)[i] == w;
      KeptWordLower(t, kept[i]);
    } else {
      assert w in SplitArgs(text).value;
      assert |w| < |text|;
    }
  }

  lemma KeptWordLower(t: Table, r: Request)
    requires TableOk(t) && KnownRule(t, r)
    ensures ToLower(RuleText(r.allow, r.target)) == RuleText(r.allow, r.target)
  {
    hide NamesOk, Known, RuleText;
    RuleTextLowered(t, r);
  }

  lemma RuleIsThere(t: Table, p: Perm, r: Request, written: string)
    requires TableOk(t) && KnownRule(t, r) && r.target.FirstArg? && ToLower(written) == r.target.arg
    ensures HasFirst(Effect(t, p, r, written), t.commands[r.target.name].id, r.target.arg)
    ensures RESERVED in Effect(t, p, r, written).allowed <==> RESERVED in p.allowed
  {
    hide Effect, NamesOk;
    EffectAt(t, p, r, written, First(t.commands[r.target.name].id, r.target.arg));
    FirstKeepsBits(t, p, r, written);
  }

  lemma FirstKeepsBits(t: Table, p: Perm, r: Request, written: string)
    requires KnownRule(t, r) && r.target.FirstArg?
    ensures Effect(t, p, r, written).allowed == p.allowed
  {
  }

  lemma BaseHasNoFirst(all: bool, id: nat, arg: string)
    ensures !HasFirst(Base(all), id, arg)
  {
  }

  lemma LostRule(t: Table, kept: Log, r: Request, q: Perm)
    requires TableOk(t) && LogOk(t, kept) && BareLog(kept) && KnownRule(t, r) && r.target.FirstArg?
    requires !Bare(RuleText(r.allow, r.target))
    requires HasFirst(q, t.commands[r.target.name].id, r.target.arg)
    ensures !TextReplays(t, kept + [r], q)
  {
    hide Run, Base, HasFirst, SplitArgs, Join, RuleText, Bare, NamesOk, IdsOk, ToLower;
    var words := SplitArgs(Join(Words(kept + [r])));
    if words.Some? {
      forall w | w in words.value ensures ToLower(w) != RuleText(true, r.target) {
        SplitLosesRule(t, kept, r, w);
      }
      BaseHasNoFirst(RESERVED in q.allowed, t.commands[r.target.name].id, r.target.arg);
      RunWithout(t, Base(RESERVED in q.allowed), words.value, r.target.name, r.target.arg);
    }
  }

  /**
    On every selector whose text replays, a first-argument rule leaves a selector whose text
    replays exactly when the argument holds no blank and no quote.
    */
  lemma FirstArgReplaysIff(t: Table, log: Log, p: Perm, name: string, arg: string, written: string)
    requires TableOk(t) && LogOk(t, log) && BareLog(log) && Explains(t, RESERVED in p.allowed, log, p)
    requires Known(t, FirstArg(name, arg)) && ToLower(written) == arg
    ensures var r := Rule(true, FirstArg(name, arg));
            TextReplays(t, Compacted(log, r), Effect(t, p, r, written)) <==> AllBare(arg)
  {
    BareArg(t, name, arg);
    hide NamesOk, IdsOk, Known, TextReplays, Explains, Effect, RuleText, Bare, AllBare, Body, HasFirst, ToLower;
    var r := Rule(true, FirstArg(name, arg));
    var kept := Kept(log, Body(r.target));
    RuleKeeps(t, RESERVED in p.allowed, log, p, r, written);
    RuleIsThere(t, p, r, written);
    KeptIsBare(log, Body(r.target));
    if AllBare(arg) {
      BareReplays(t, Compacted(log, r), Effect(t, p, r, written));
    } else {
      LogPrefix(t, kept, r);
      LostRule(t, kept, r, Effect(t, p, r, written));
    }
  }

  lemma LogPrefix(t: Table, kept: Log, r: Request)
    requires LogOk(t, kept + [r])
    ensures LogOk(t, kept)
  {
    hide Known;
    forall i | 0 <= i < |kept| ensures KnownRule(t, kept[i]) {
      assert (kept + [r])[i] == kept[i];
    }
  }

  /** A rule whose argument ends in a blank is accepted by a new selector and then lost. */
  lemma BlankIsLost(t: Table, name: string)
    requires TableOk(t) && name in t.commands && t.commands[name].subs == map[]
    ensures var r := Rule(true, FirstArg(name, ['a', ' ']));
      KnownRule(t, r) && !TextReplays(t, [r], Effect(t, Base(false), r, ['a', ' ']))
  {
    var arg := ['a', ' '];
    assert ToLower(arg) == arg;
    assert !BareChar(arg[1]);
    BaseExplained(t, false);
    assert RESERVED !in Base(false).allowed;
    hide Explains, TextReplays, Effect, NamesOk, IdsOk;
    FirstArgReplaysIff(t, [], Base(false), name, arg, arg);
    assert Compacted([], Rule(true, FirstArg(name, arg))) == [Rule(true, FirstArg(name, arg))];
  }

  // ---- command ids ----

  /** ACLGetCommandID: names, in lower case, keep their ids for good. */
  class CommandIds {
    var ids: map<string, nat>
    var nextId: nat

    /** Ids are distinct, handed out in order, and never the reserved bit. */
    ghost predicate Valid()
      reads this
    {
      && nextId != RESERVED
      && (forall n <- ids :: ids[n] < nextId && ids[n] != RESERVED)
      && (forall m <- ids, n <- ids :: ids[m] == ids[n] ==> m == n)
    }

    constructor ()
      ensures Valid() && ids == map[]
    {
      ids, nextId := map[], 0;
    }

    method GetCommandId(name: string) returns (id: nat)
      requires Valid()
      modifies this
      ensures Valid() && ToLower(name) in ids && id == ids[ToLower(name)]
      ensures ids.Keys == old(ids).Keys + {ToLower(name)}
      ensures forall n <- old(ids) :: ids[n] == old(ids)[n]
    {
      var lower := ToLower(name);
      if lower in ids {
        return ids[lower];
      }
      ids := ids[lower := nextId];
      id := nextId;
      nextId := nextId + 1;
      if nextId == RESERVED {
        nextId := nextId + 1;
      }
    }
  }
}
