/**
  A selector as the ACL code updates it in place: the command bitmap, the first
  arguments, the flag that skips the bitmap test, and the text of the rules.
  */
module AclSelector {
  import opened Wrappers
  import opened SdsText
  import opened AclTable
  import opened AclRules
  import opened AclText
  import opened AclWords

  // ---- overwriting ----

  function Overwrite(p: Perm, bits: set<nat>, resets: set<nat>, allow: bool): Perm {
    Perm(if allow then p.allowed + bits else p.allowed - bits, p.firsts - resets)
  }

  lemma OverwriteTwice(p: Perm, b1: set<nat>, r1: set<nat>, b2: set<nat>, r2: set<nat>, allow: bool)
    ensures Overwrite(Overwrite(p, b1, r1, allow), b2, r2, allow) == Overwrite(p, b1 + b2, r1 + r2, allow)
  {
    assert p.allowed + b1 + b2 == p.allowed + (b1 + b2);
    assert p.allowed - b1 - b2 == p.allowed - (b1 + b2);
    assert p.firsts - r1 - r2 == p.firsts - (r1 + r2);
  }

  lemma OverwriteNone(p: Perm, allow: bool)
    ensures Overwrite(p, {}, {}, allow) == p
  {
    assert p.allowed + {} == p.allowed && p.allowed - {} == p.allowed && p.firsts - {} == p.firsts;
  }

  // ---- what a category does, dictionary entry by dictionary entry ----

  function IdsOf(subs: map<string, Sub>, names: set<string>): set<nat> {
    set s | s in names && s in subs :: subs[s].id
  }

  function IdsIn(subs: map<string, Sub>, names: set<string>, category: string): set<nat> {
    set s | s in names && s in subs && category in subs[s].categories :: subs[s].id
  }

  function BitsIn(c: Command, category: string): set<nat> {
    (if category in c.categories then WholeBits(c) else {}) + IdsIn(c.subs, c.subs.Keys, category)
  }

  function ResetsIn(c: Command, category: string): set<nat> {
    (if category in c.categories then {c.id} else {}) + IdsIn(c.subs, c.subs.Keys, category)
  }

  function BitsAmong(t: Table, names: set<string>, category: string): set<nat> {
    set n, i | n in names && n in t.commands && i in BitsIn(t.commands[n], category) :: i
  }

  function ResetsAmong(t: Table, names: set<string>, category: string): set<nat> {
    set n, i | n in names && n in t.commands && i in ResetsIn(t.commands[n], category) :: i
  }

  lemma AmongOne(t: Table, names: set<string>, n: string, category: string)
    requires n in t.commands
    ensures BitsAmong(t, names + {n}, category) == BitsAmong(t, names, category) + BitsIn(t.commands[n], category)
    ensures ResetsAmong(t, names + {n}, category) == ResetsAmong(t, names, category) + ResetsIn(t.commands[n], category)
  {
    hide BitsIn, ResetsIn;
  }

  lemma AmongAll(t: Table, category: string)
    ensures BitsAmong(t, t.commands.Keys, category) == WholesIn(t, category) + SubsIn(t, category)
    ensures ResetsAmong(t, t.commands.Keys, category) == TopsIn(t, category) + SubsIn(t, category)
  {
    hide WholeBits;
    forall i ensures i in BitsAmong(t, t.commands.Keys, category) <==> i in WholesIn(t, category) + SubsIn(t, category) {
      if i in SubsIn(t, category) {
        var n, s :| n in t.commands && s in t.commands[n].subs && category in t.commands[n].subs[s].categories &&
          t.commands[n].subs[s].id == i;
        assert i in BitsIn(t.commands[n], category);
      } else if i in WholesIn(t, category) {
        var n :| n in t.commands && category in t.commands[n].categories && i in WholeBits(t.commands[n]);
        assert i in BitsIn(t.commands[n], category);
      }
    }
    forall i ensures i in ResetsAmong(t, t.commands.Keys, category) <==> i in TopsIn(t, category) + SubsIn(t, category) {
      if i in SubsIn(t, category) {
        var n, s :| n in t.commands && s in t.commands[n].subs && category in t.commands[n].subs[s].categories &&
          t.commands[n].subs[s].id == i;
        assert i in ResetsIn(t.commands[n], category);
      } else if i in TopsIn(t, category) {
        var n :| n in t.commands && category in t.commands[n].categories && t.commands[n].id == i;
        assert i in ResetsIn(t.commands[n], category);
      }
    }
  }

  lemma Shrinks(names: set<string>, done: set<string>, n: string)
    requires n in names - done
    ensures |names - (done + {n})| < |names - done|
  {
    assert names - (done + {n}) == (names - done) - {n};
  }

  lemma NoIds(subs: map<string, Sub>, id: nat)
    ensures {id} + IdsOf(subs, {}) == {id}
  {
  }

  lemma NoIdsIn(subs: map<string, Sub>, category: string)
    ensures IdsIn(subs, {}, category) == {}
  {
  }

  lemma SubDone(p: Perm, id: nat, subs: map<string, Sub>, done: set<string>, s: string, allow: bool)
    requires s in subs
    ensures Overwrite(Overwrite(p, {id} + IdsOf(subs, done), {id}, allow), {subs[s].id}, {}, allow)
         == Overwrite(p, {id} + IdsOf(subs, done + {s}), {id}, allow)
  {
    hide Overwrite, IdsOf;
    OverwriteTwice(p, {id} + IdsOf(subs, done), {id}, {subs[s].id}, {}, allow);
    IdsOfOne(subs, done, s);
    assert {id} + IdsOf(subs, done) + {subs[s].id} == {id} + (IdsOf(subs, done) + {subs[s].id});
    assert {id} + {} == {id};
  }

  lemma IdsOfOne(subs: map<string, Sub>, names: set<string>, s: string)
    requires s in subs
    ensures IdsOf(subs, names + {s}) == IdsOf(subs, names) + {subs[s].id}
  {
  }

  lemma IdsInOne(subs: map<string, Sub>, names: set<string>, s: string, category: string)
    requires s in subs
    ensures IdsIn(subs, names + {s}, category)
         == IdsIn(subs, names, category) + (if category in subs[s].categories then {subs[s].id} else {})
  {
  }

  // ---- the selector ----

  class Selector {
    var allowed: set<nat>
    var firsts: map<nat, seq<string>>
    var rules: string
    var allCommands: bool
    /** The rules that the text stands for. */
    ghost var log: Log

    function Now(): Perm
      reads this
    {
      Perm(allowed, firsts)
    }

    /** The flag is a shortcut: it is set only while every bit is. */
    ghost predicate Shortcut()
      reads this
    {
      allCommands ==> allowed == AllBits()
    }

    /** The text is the text of a history of bare words, and that history explains the permissions. */
    ghost predicate Replayable(t: Table)
      reads this
    {
      && LogOk(t, log) && Explains(t, RESERVED in allowed, log, Now())
      && (forall i :: 0 <= i < |log| ==> Bare(RuleText(log[i].allow, log[i].target)))
      && rules == Join(Words(log))
    }

    constructor ()
      ensures Now() == Base(false) && rules == [] && !allCommands
      ensures forall t :: Replayable(t)
    {
      allowed, firsts, rules, allCommands, log := {}, map[], [], false, [];
      new;
      forall t ensures Replayable(t) {
        BaseExplained(t, false);
      }
    }

    method SetCommandBit(id: nat, allow: bool)
      requires id <= RESERVED
      modifies this`allowed, this`allCommands
      ensures Now() == Overwrite(old(Now()), {id}, {}, allow)
      ensures allCommands == (old(allCommands) && allow)
    {
      if allow {
        allowed := allowed + {id};
      } else {
        allowed := allowed - {id};
        allCommands := false;
      }
      assert firsts - {} == firsts;
    }

    /** ACLChangeSelectorPerm */
    method ChangePerm(id: nat, subs: map<string, Sub>, allow: bool)
      requires id <= RESERVED && forall s <- subs :: subs[s].id <= RESERVED
      modifies this`allowed, this`firsts, this`allCommands
      ensures Now() == Overwrite(old(Now()), {id} + IdsOf(subs, subs.Keys), {id}, allow)
      ensures allCommands == (old(allCommands) && allow)
    {
      ghost var start := Now();
      SetCommandBit(id, allow);
      firsts := firsts - {id};
      NoIds(subs, id);
      assert Now() == Overwrite(start, {id} + IdsOf(subs, {}), {id}, allow) by {
        assert start.firsts - {} == start.firsts;
      }
      hide Overwrite, IdsOf;
      var done := {};
      while done != subs.Keys
        invariant done <= subs.Keys
        invariant Now() == Overwrite(start, {id} + IdsOf(subs, done), {id}, allow)
        invariant allCommands == (old(allCommands) && allow)
        decreases |subs.Keys - done|
      {
        var s :| s in subs.Keys - done;
        SetCommandBit(subs[s].id, allow);
        SubDone(start, id, subs, done, s, allow);
        Shrinks(subs.Keys, done, s);
        done := done + {s};
      }
    }

    /** ACLSetSelectorCommandBitsForCategory, on a container's own dictionary. */
    method SetSubBitsForCategory(subs: map<string, Sub>, category: string, allow: bool)
      requires forall s <- subs :: subs[s].id <= RESERVED
      modifies this`allowed, this`firsts, this`allCommands
      ensures var ids := IdsIn(subs, subs.Keys, category);
        Now() == Overwrite(old(Now()), ids, ids, allow) && allCommands == (old(allCommands) && (allow || ids == {}))
    {
      hide Overwrite, IdsIn, IdsOf;
      ghost var start := Now();
      OverwriteNone(start, allow);
      NoIdsIn(subs, category);
      var done := {};
      while done != subs.Keys
        invariant done <= subs.Keys
        invariant var ids := IdsIn(subs, done, category);
          Now() == Overwrite(start, ids, ids, allow) && allCommands == (old(allCommands) && (allow || ids == {}))
        decreases |subs.Keys - done|
      {
        var s :| s in subs.Keys - done;
        ghost var ids := IdsIn(subs, done, category);
        IdsInOne(subs, done, s, category);
        if category in subs[s].categories {
          var none: map<string, Sub> := map[];
          ChangePerm(subs[s].id, none, allow);
          assert none.Keys == {};
          NoIds(none, subs[s].id);
          OverwriteTwice(start, ids, ids, {subs[s].id}, {subs[s].id}, allow);
          assert subs[s].id in IdsIn(subs, done + {s}, category);
        } else {
          assert ids + {} == ids;
        }
        Shrinks(subs.Keys, done, s);
        done := done + {s};
      }
    }

    /** ACLSetSelectorCommandBitsForCategory */
    method SetBitsForCategory(t: Table, category: string, allow: bool)
      requires IdsOk(t)
      modifies this`allowed, this`firsts, this`allCommands
      ensures var bits := WholesIn(t, category) + SubsIn(t, category);
        && Now() == Overwrite(old(Now()), bits, TopsIn(t, category) + SubsIn(t, category), allow)
        && allCommands == (old(allCommands) && (allow || bits == {}))
    {
      ghost var start := Now();
      OverwriteNone(start, allow);
      assert BitsAmong(t, {}, category) == {} && ResetsAmong(t, {}, category) == {};
      var done := {};
      hide BitsAmong, ResetsAmong, BitsIn, ResetsIn, Overwrite, WholesIn, SubsIn, TopsIn;
      while done != t.commands.Keys
        invariant done <= t.commands.Keys
        invariant Now() == Overwrite(start, BitsAmong(t, done, category), ResetsAmong(t, done, category), allow)
        invariant allCommands == (old(allCommands) && (allow || BitsAmong(t, done, category) == {}))
        decreases |t.commands.Keys - done|
      {
        var n :| n in t.commands.Keys - done;
        SetEntryForCategory(t.commands[n], category, allow);
        OverwriteTwice(start, BitsAmong(t, done, category), ResetsAmong(t, done, category),
                       BitsIn(t.commands[n], category), ResetsIn(t.commands[n], category), allow);
        AmongOne(t, done, n, category);
        Shrinks(t.commands.Keys, done, n);
        done := done + {n};
      }
      AmongAll(t, category);
    }

    /** One entry of the command dictionary, and the dictionary below it. */
    method SetEntryForCategory(c: Command, category: string, allow: bool)
      requires c.id <= RESERVED && forall s <- c.subs :: c.subs[s].id <= RESERVED
      modifies this`allowed, this`firsts, this`allCommands
      ensures Now() == Overwrite(old(Now()), BitsIn(c, category), ResetsIn(c, category), allow)
      ensures allCommands == (old(allCommands) && (allow || BitsIn(c, category) == {}))
    {
      ghost var start := Now();
      ghost var ids := IdsIn(c.subs, c.subs.Keys, category);
      OverwriteNone(start, allow);
      if category in c.categories {
        ChangePerm(c.id, c.subs, allow);
        assert IdsOf(c.subs, c.subs.Keys) == SubIds(c);
        OverwriteTwice(start, WholeBits(c), {c.id}, ids, ids, allow);
        assert c.id in BitsIn(c, category);
      } else {
        OverwriteTwice(start, {}, {}, ids, ids, allow);
      }
      SetSubBitsForCategory(c.subs, category, allow);
    }

    /** ACLAddAllowedFirstArg */
    method AddFirstArg(id: nat, sub: string)
      modifies this`firsts
      ensures Now() == AddFirst(old(Now()), id, sub)
    {
      var args := FirstsOf(Now(), id);
      var items := 0;
      while items < |args|
        invariant 0 <= items <= |args|
        invariant forall k :: 0 <= k < items ==> ToLower(args[k]) != ToLower(sub)
      {
        if ToLower(args[items]) == ToLower(sub) {
          return;
        }
        items := items + 1;
      }
      firsts := firsts[id := args + [sub]];
    }

    /** ACLUpdateCommandRules */
    method UpdateRules(t: Table, r: Request)
      requires TableOk(t) && KnownRule(t, r)
      modifies this`rules, this`log
      ensures old(LogOk(t, log)) ==> log == Compacted(old(log), r)
      ensures old(LogOk(t, log) && rules == Join(Words(log)) && AllSolid(Words(log))) ==> rules == Join(Words(log))
    {
      hide TableOk, Known, Body, Left, Kept, Join;
      ghost var good := LogOk(t, log);
      ghost var words := if good then Words(log) else [];
      var neu := Body(r.target);
      ghost var before := log;
      rules := RemoveRule(rules, neu, words);
      if good {
        LeftWords(log, neu);
        log := Compacted(log, r);
        assert Words(log) == Words(Kept(before, neu)) + [[Sign(r.allow)] + neu];
        JoinAppend(Words(Kept(before, neu)), [Sign(r.allow)] + neu);
        KeptSolid(before, neu);
      }
      if rules != [] {
        rules := rules + [' '];
      }
      rules := rules + [Sign(r.allow)] + neu;
    }

    /** The permission change of an accepted rule. */
    method Apply(t: Table, r: Request, written: string)
      requires TableOk(t) && KnownRule(t, r)
      modifies this`allowed, this`firsts, this`allCommands
      ensures Now() == Effect(t, old(Now()), r, written)
      ensures old(Shortcut()) ==> Shortcut()
    {
      ghost var was := Now();
      match r.target {
        case Whole(name) =>
          var c := t.commands[name];
          ChangePerm(c.id, c.subs, r.allow);
          assert IdsOf(c.subs, c.subs.Keys) == SubIds(c);
        case SubOf(name, sub) =>
          var none: map<string, Sub> := map[];
          ChangePerm(t.commands[name].subs[sub].id, none, r.allow);
          assert none.Keys == {};
          NoIds(none, t.commands[name].subs[sub].id);
        case FirstArg(name, _) =>
          AddFirstArg(t.commands[name].id, written);
        case Category(category) =>
          SetBitsForCategory(t, category, r.allow);
      }
      if was.allowed == AllBits() && (r.allow || Bits(t, r.target) == {}) {
        ShortcutKept(t, was, r, written);
      }
    }

    /** An accepted rule: its effect, then its place in the text. */
    method SetRule(t: Table, r: Request, written: string)
      requires TableOk(t) && KnownRule(t, r) && (r.target.FirstArg? ==> ToLower(written) == r.target.arg)
      modifies this
      ensures Now() == Effect(t, old(Now()), r, written)
      ensures old(Replayable(t)) && Bare(RuleText(r.allow, r.target)) ==> Replayable(t)
      ensures old(Shortcut()) ==> Shortcut()
    {
      hide TableOk, Known, Effect, Explains, RuleText, Bare, Base, ToLower, Join, AllSolid;
      ghost var good := Replayable(t) && Bare(RuleText(r.allow, r.target));
      ghost var all := RESERVED in allowed;
      ghost var was, before := Now(), log;
      Apply(t, r, written);
      if good {
        RuleKeeps(t, all, before, was, r, written);
        ReservedStays(t, before, was, r, written);
        BareSolid(before);
        KeptBare(before, r);
      }
      UpdateRules(t, r);
    }

    /**
      The command branches of ACLSetSelector. An error changes nothing, and a
      rule of bare words leaves a replayable selector replayable.
      */
    method SetSelector(t: Table, op: string) returns (r: Request)
      requires TableOk(t)
      modifies this
      ensures r == Read(t, ToLower(op))
      ensures Do(t, old(Now()), op) == if r.Refused? then None else Some(Now())
      ensures r.Refused? || r.Foreign? ==> unchanged(this)
      ensures ToLower(op) == "allcommands" || ToLower(op) == "+@all" ==>
        (forall i: nat :: i in allowed <==> i < 1024) && firsts == map[] && allCommands && rules == []
      ensures ToLower(op) == "nocommands" || ToLower(op) == "-@all" ==>
        allowed == {} && firsts == map[] && !allCommands && rules == []
      ensures r.Everything? || r.Nothing? ==> rules == [] && Replayable(t)
      ensures old(Replayable(t)) && (r.Rule? ==> Bare(RuleText(r.allow, r.target))) ==> Replayable(t)
      ensures old(Shortcut()) ==> Shortcut()
    {
      hide TableOk, Known, Read, Effect, Written, Explains, RuleText, Bare, Base, ToLower, AllBits;
      r := Read(t, ToLower(op));
      AllOrNothing(t, Now(), op);
      ReadAllOrNothing(t, op);
      match r {
        case Everything =>
          allowed, firsts, rules, allCommands, log := AllBits(), map[], [], true, [];
          StartExplained(t, true);
        case Nothing =>
          allowed, firsts, rules, allCommands, log := {}, map[], [], false, [];
          StartExplained(t, false);
        case Rule(_, _) =>
          LowerTwice(op);
          ReadKnown(t, ToLower(op));
          if r.target.FirstArg? {
            WrittenLower(t, op);
          }
          SetRule(t, r, Written(op));
        case Refused(_) =>
        case Foreign =>
      }
    }

    /** The loop that applies a split rule text; it stops at the first error. */
    method Replay(t: Table, words: seq<string>) returns (ok: bool)
      requires TableOk(t)
      modifies this
      ensures ok == Run(t, old(Now()), words).Some?
      ensures ok ==> Now() == Run(t, old(Now()), words).value
    {
      hide TableOk, Do, Read, Base;
      ghost var start := Now();
      assert words[..0] == [];
      for i := 0 to |words|
        invariant Run(t, start, words[..i]) == Some(Now())
      {
        var r := SetSelector(t, words[i]);
        assert words[..i + 1][..i] == words[..i];
        if r.Refused? {
          RunFails(t, start, words, i + 1);
          return false;
        }
      }
      assert words[..|words|] == words;
      return true;
    }

    /**
      ACLDescribeSelectorCommandRules: the rules are run on a fake selector.
      `ok` is false where an assertion of the original, or its panic on a
      different bitmap, would stop the server.
      */
    method Describe(t: Table) returns (text: string, fake: Selector, ok: bool)
      requires TableOk(t)
      ensures fresh(fake)
      ensures text == (if RESERVED in allowed then "+@all" else "-@all") + (if rules == [] then [] else [' '] + rules)
      ensures Replayable(t) ==> ok && Same(fake.Now(), Now())
    {
      hide TableOk, Run, Base, Do, Read, ToLower, Explains, Bare, RuleText, Known, Same;
      fake := new Selector();
      var all := RESERVED in allowed;
      text := if all then "+@all" else "-@all";
      ReadStart(t, all, fake.Now());
      var r := fake.SetSelector(t, text);
      assert fake.Now() == Base(all);
      if rules != [] {
        text := text + [' '] + rules;
      }
      if Replayable(t) {
        SplitJoin(Words(log));
        ReplayGivesSame(t, log, Now());
      }
      var words := SplitArgs(rules);
      if words.None? {
        return text, fake, false;
      }
      ok := fake.Replay(t, words.value);
      if Replayable(t) {
        SameBits(fake.Now(), Now());
      }
      ok := ok && fake.allowed == allowed;
    }

    /** One selector of ACLRecomputeCommandBitsFromCommandRulesAllUsers: the rules are run on itself. */
    method Recompute(t: Table) returns (ok: bool)
      requires TableOk(t)
      modifies this
      ensures old(Replayable(t)) ==> ok && Same(Now(), old(Now()))
    {
      hide TableOk, Run, Base, Do, Read, ToLower, Explains, Bare, RuleText, Known, Same;
      var words := SplitArgs(rules);
      if words.None? {
        if Replayable(t) {
          SplitJoin(Words(log));
        }
        return false;
      }
      if Replayable(t) {
        SplitJoin(Words(log));
        ReplayGivesSame(t, log, Now());
      }
      var all := RESERVED in allowed;
      ReadStart(t, all, Now());
      var r := SetSelector(t, if all then "+@all" else "-@all");
      assert Now() == Base(all);
      ok := Replay(t, words.value);
    }
  }

  lemma ReadAllOrNothing(t: Table, op: string)
    ensures ToLower(op) == "allcommands" || ToLower(op) == "+@all" ==> Read(t, ToLower(op)) == Everything
    ensures ToLower(op) == "nocommands" || ToLower(op) == "-@all" ==> Read(t, ToLower(op)) == Nothing
  {
    assert "nocommands"[0] == 'n' && "allcommands"[0] == 'a' && "+@all"[0] == '+' && "-@all"[0] == '-';
    hide ToLower;
  }

  lemma ReadStart(t: Table, all: bool, p: Perm)
    ensures Read(t, ToLower(if all then "+@all" else "-@all")) == if all then Everything else Nothing
    ensures Do(t, p, if all then "+@all" else "-@all") == Some(Base(all))
  {
    var op := if all then "+@all" else "-@all";
    assert ToLower(op) == op;
  }

  lemma SameBits(p: Perm, q: Perm)
    ensures Same(p, q) ==> p.allowed == q.allowed
  {
  }

  lemma {:induction false} RunFails(t: Table, p: Perm, words: seq<string>, n: nat)
    requires n <= |words| && Run(t, p, words[..n]).None?
    ensures Run(t, p, words).None?
    decreases |words|
  {
    hide Do;
    if n < |words| {
      var short := words[..|words| - 1];
      assert short[..n] == words[..n];
      RunFails(t, p, short, n);
    } else {
      assert words[..n] == words;
    }
  }

  lemma ShortcutKept(t: Table, p: Perm, r: Request, written: string)
    requires IdsOk(t) && KnownRule(t, r) && p.allowed == AllBits() && (r.allow || Bits(t, r.target) == {})
    ensures Effect(t, p, r, written).allowed == AllBits()
  {
    hide Bits, Resets, IdsOk;
    forall id | id in Bits(t, r.target) ensures id < RESERVED {
      BitsBelowReserved(t, r.target, id);
    }
  }

  lemma StartExplained(t: Table, all: bool)
    ensures Base(all) == Perm(if all then AllBits() else {}, map[])
    ensures RESERVED in Base(all).allowed <==> all
    ensures Explains(t, all, [], Base(all)) && Join(Words([])) == []
  {
    BaseExplained(t, all);
  }

  lemma BareSolid(log: Log)
    requires forall i :: 0 <= i < |log| ==> log[i].Rule? && Bare(RuleText(log[i].allow, log[i].target))
    ensures AllSolid(Words(log))
  {
    hide RuleText;
    forall i | 0 <= i < |log| ensures Solid(Words(log)[i]) {
      var w := RuleText(log[i].allow, log[i].target);
      assert forall k :: 0 <= k < |w| ==> BareChar(w[k]);
    }
  }

  lemma KeptBare(log: Log, r: Request)
    requires r.Rule? && Bare(RuleText(r.allow, r.target))
    requires forall i :: 0 <= i < |log| ==> log[i].Rule? && Bare(RuleText(log[i].allow, log[i].target))
    ensures var neu := Compacted(log, r);
      forall i :: 0 <= i < |neu| ==> neu[i].Rule? && Bare(RuleText(neu[i].allow, neu[i].target))
  {
    hide RuleText, Bare, Body;
    var kept := Kept(log, Body(r.target));
    forall i | 0 <= i < |kept| ensures Bare(RuleText(kept[i].allow, kept[i].target)) {
      assert kept[i] in log;
    }
  }

  lemma KeptSolid(log: Log, neu: string)
    requires forall i :: 0 <= i < |log| ==> log[i].Rule?
    ensures AllSolid(Words(log)) ==> (Join(Words(Kept(log, neu))) == [] <==> Kept(log, neu) == [])
  {
    hide Body, Join, RuleText;
    if AllSolid(Words(log)) {
      var kept := Kept(log, neu);
      forall i | 0 <= i < |kept| ensures Solid(Words(kept)[i]) {
        assert kept[i] in log;
        var k :| 0 <= k < |log| && log[k] == kept[i];
        assert Solid(Words(log)[k]);
      }
      JoinNone();
      if kept != [] {
        JoinSome(Words(kept));
      } else {
        assert Words(kept) == [];
      }
    }
  }
}
