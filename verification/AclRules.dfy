/**
  What command rules do to a selector's permissions. A rule overwrites some
  coordinates: command bits, or the membership of one first argument. Dropping
  a rule whose coordinates a newer rule overwrites leaves the outcome as it was.
  */
module AclRules {
  import opened Wrappers
  import opened SdsText
  import opened AclTable

  /** allowed_commands as a set of bit numbers, and allowed_firstargs by command id. */
  datatype Perm = Perm(allowed: set<nat>, firsts: map<nat, seq<string>>)

  function BitsBelow(n: nat): (r: set<nat>)
    ensures forall i: nat :: i in r <==> i < n
  {
    if n == 0 then {} else BitsBelow(n - 1) + {n - 1}
  }

  function AllBits(): set<nat> { BitsBelow(RESERVED + 1) }

  function Base(all: bool): Perm { Perm(if all then AllBits() else {}, map[]) }

  // ---- which bits a rule sets, and whose first arguments it clears ----

  function SubIds(c: Command): set<nat> { set s | s in c.subs :: c.subs[s].id }

  function WholeBits(c: Command): set<nat> { {c.id} + SubIds(c) }

  function TopsIn(t: Table, category: string): set<nat> {
    set n | n in t.commands && category in t.commands[n].categories :: t.commands[n].id
  }

  function WholesIn(t: Table, category: string): set<nat> {
    set n, i | n in t.commands && category in t.commands[n].categories && i in WholeBits(t.commands[n]) :: i
  }

  function SubsIn(t: Table, category: string): set<nat> {
    set n, s | n in t.commands && s in t.commands[n].subs && category in t.commands[n].subs[s].categories ::
      t.commands[n].subs[s].id
  }

  function Bits(t: Table, target: Target): set<nat>
    requires Known(t, target)
  {
    match target
    case Whole(name) => WholeBits(t.commands[name])
    case SubOf(name, sub) => {t.commands[name].subs[sub].id}
    case FirstArg(_, _) => {}
    case Category(category) => WholesIn(t, category) + SubsIn(t, category)
  }

  function Resets(t: Table, target: Target): set<nat>
    requires Known(t, target)
  {
    match target
    case Whole(name) => {t.commands[name].id}
    case SubOf(name, sub) => {t.commands[name].subs[sub].id}
    case FirstArg(_, _) => {}
    case Category(category) => TopsIn(t, category) + SubsIn(t, category)
  }

  // ---- the effect of a rule ----

  /** Membership up to case (strcasecmp). */
  predicate Holds(args: seq<string>, arg: string) {
    exists k :: 0 <= k < |args| && ToLower(args[k]) == arg
  }

  predicate HasFirst(p: Perm, id: nat, arg: string) {
    id in p.firsts && Holds(p.firsts[id], arg)
  }

  function FirstsOf(p: Perm, id: nat): seq<string> { if id in p.firsts then p.firsts[id] else [] }

  /** ACLAddAllowedFirstArg: kept as written, unless it is there in some case. */
  function AddFirst(p: Perm, id: nat, written: string): Perm {
    if HasFirst(p, id, ToLower(written)) then p
    else p.(firsts := p.firsts[id := FirstsOf(p, id) + [written]])
  }

  function SetBits(p: Perm, ids: set<nat>, allow: bool): Perm {
    p.(allowed := if allow then p.allowed + ids else p.allowed - ids)
  }

  /** The effect of a rule; `written` is its first argument as the caller wrote it. */
  function Effect(t: Table, p: Perm, r: Request, written: string): Perm
    requires KnownRule(t, r)
  {
    if r.target.FirstArg? then AddFirst(p, t.commands[r.target.name].id, written)
    else
      var q := SetBits(p, Bits(t, r.target), r.allow);
      q.(firsts := q.firsts - Resets(t, r.target))
  }

  // ---- coordinates ----

  datatype Coord = Bit(id: nat) | First(id: nat, arg: string)

  predicate At(p: Perm, c: Coord) {
    match c
    case Bit(id) => id in p.allowed
    case First(id, arg) => HasFirst(p, id, arg)
  }

  /** The rule overwrites this coordinate. */
  ghost predicate Touches(t: Table, target: Target, c: Coord)
    requires Known(t, target)
  {
    match c
    case Bit(id) => id in Bits(t, target)
    case First(id, arg) =>
      || id in Resets(t, target)
      || (target.FirstArg? && id == t.commands[target.name].id && arg == target.arg)
  }

  /** The value it writes there. */
  ghost predicate Writes(r: Request, c: Coord)
    requires r.Rule?
  {
    if c.Bit? then r.allow else r.target.FirstArg?
  }

  ghost predicate Top(t: Table, id: nat) { exists n :: n in t.commands && t.commands[n].id == id }

  /** Only commands that are no subcommands can have first arguments. */
  ghost predicate Live(t: Table, c: Coord) { c.Bit? || Top(t, c.id) }

  ghost predicate Sane(t: Table, p: Perm) {
    p.allowed <= AllBits() && forall id <- p.firsts :: Top(t, id)
  }

  lemma EffectAt(t: Table, p: Perm, r: Request, written: string, c: Coord)
    requires IdsOk(t) && KnownRule(t, r)
    requires r.target.FirstArg? ==> ToLower(written) == r.target.arg
    ensures At(Effect(t, p, r, written), c) == if Touches(t, r.target, c) then Writes(r, c) else At(p, c)
  {
    if r.target.FirstArg? {
      var id := t.commands[r.target.name].id;
      if c.First? && c.id == id && !HasFirst(p, id, r.target.arg) {
        HoldsAppend(FirstsOf(p, id), written, c.arg);
      }
    }
  }

  lemma HoldsAppend(args: seq<string>, written: string, arg: string)
    ensures Holds(args + [written], arg) <==> Holds(args, arg) || ToLower(written) == arg
  {
    hide ToLower;
    var more := args + [written];
    assert more[|args|] == written;
    if Holds(args, arg) {
      var k :| 0 <= k < |args| && ToLower(args[k]) == arg;
      assert more[k] == args[k];
    }
  }

  lemma BitsBelowReserved(t: Table, target: Target, id: nat)
    requires IdsOk(t) && Known(t, target) && id in Bits(t, target)
    ensures id < RESERVED
  {
  }

  lemma EffectSane(t: Table, p: Perm, r: Request, written: string)
    requires IdsOk(t) && KnownRule(t, r) && Sane(t, p)
    ensures Sane(t, Effect(t, p, r, written))
    ensures RESERVED in Effect(t, p, r, written).allowed <==> RESERVED in p.allowed
  {
    hide Bits, Resets, IdsOk;
    forall id | id in Bits(t, r.target) ensures id < RESERVED {
      BitsBelowReserved(t, r.target, id);
    }
  }

  // ---- a history of rules ----

  type Log = seq<Request>

  ghost predicate LogOk(t: Table, log: Log) { forall i :: 0 <= i < |log| ==> KnownRule(t, log[i]) }

  /** Last writer wins. */
  ghost predicate Outcome(t: Table, all: bool, log: Log, c: Coord)
    requires LogOk(t, log)
  {
    if log == [] then At(Base(all), c)
    else
      var last := log[|log| - 1];
      if Touches(t, last.target, c) then Writes(last, c) else Outcome(t, all, log[..|log| - 1], c)
  }

  /** The permissions are what the history says. */
  ghost predicate Explains(t: Table, all: bool, log: Log, p: Perm)
    requires LogOk(t, log)
  {
    && Sane(t, p)
    && (RESERVED in p.allowed <==> all)
    && forall c | Live(t, c) :: At(p, c) == Outcome(t, all, log, c)
  }

  // ---- compaction ----

  /** The match of ACLSelectorRemoveCommandRule: the same text, or the text and a bar. */
  predicate Superseded(neu: string, prior: string) {
    neu == prior || (|neu| < |prior| && prior[..|neu|] == neu && prior[|neu|] == '|')
  }

  ghost function Kept(log: Log, neu: string): (r: Log)
    requires forall i :: 0 <= i < |log| ==> log[i].Rule?
    ensures forall x :: x in r ==> x in log
    ensures forall i :: 0 <= i < |r| ==> r[i].Rule?
  {
    if log == [] then []
    else
      var rest := Kept(log[..|log| - 1], neu);
      var last := log[|log| - 1];
      if Superseded(neu, Body(last.target)) then rest else rest + [last]
  }

  /** A bar in a target's text stands between a command and what is under it. */
  lemma BarInBody(t: Table, target: Target, k: nat)
    requires NamesOk(t) && Known(t, target) && k < |Body(target)| && Body(target)[k] == '|'
    ensures (target.SubOf? || target.FirstArg?) && k == |target.name| && Body(target)[..k] == target.name
  {
    if target.SubOf? {
      BarBetween(target.name, target.sub, k);
    } else if target.FirstArg? {
      BarBetween(target.name, target.arg, k);
    }
  }

  lemma BarBetween(a: string, b: string, k: nat)
    requires '|' !in a && '|' !in b && k < |a| + 1 + |b| && (a + ['|'] + b)[k] == '|'
    ensures k == |a| && (a + ['|'] + b)[..k] == a
  {
    assert forall i :: 0 <= i < |a| ==> a[i] in a;
    assert forall i :: 0 <= i < |b| ==> b[i] in b;
  }

  /** A superseded rule is the same rule, or a rule below the command the new rule is about. */
  lemma SupersededBelow(t: Table, neu: Target, prior: Target)
    requires NamesOk(t) && Known(t, neu) && Known(t, prior) && Superseded(Body(neu), Body(prior)) && neu != prior
    ensures neu.Whole? && (prior.SubOf? || prior.FirstArg?) && prior.name == neu.name
  {
    if Body(neu) == Body(prior) {
      BodyInjective(t, neu, prior);
    } else {
      var k := |Body(neu)|;
      BarInBody(t, prior, k);
      BelowWhole(t, neu, prior);
    }
  }

  lemma BelowWhole(t: Table, neu: Target, prior: Target)
    requires NamesOk(t) && Known(t, neu) && Known(t, prior) && (prior.SubOf? || prior.FirstArg?)
    requires Body(neu) == prior.name
    ensures neu == Whole(prior.name)
  {
    hide NamesOk, Known, Body;
    assert Known(t, Whole(prior.name)) by { NameKnown(t, prior); }
    assert Body(Whole(prior.name)) == prior.name by { WholeBody(prior.name); }
    BodyInjective(t, neu, Whole(prior.name));
  }

  lemma NameKnown(t: Table, target: Target)
    requires Known(t, target) && !target.Category?
    ensures Known(t, Whole(target.name))
  {
  }

  lemma WholeBody(name: string)
    ensures Body(Whole(name)) == name
  {
  }

  /** The new rule overwrites every live coordinate that a superseded rule overwrote. */
  lemma Covers(t: Table, neu: Target, prior: Target, c: Coord)
    requires TableOk(t) && Known(t, neu) && Known(t, prior) && Superseded(Body(neu), Body(prior))
    requires Touches(t, prior, c) && Live(t, c)
    ensures Touches(t, neu, c)
  {
    hide NamesOk, Superseded, Body;
    if neu != prior {
      SupersededBelow(t, neu, prior);
    }
  }

  lemma {:induction false} KeptOutcome(t: Table, all: bool, log: Log, neu: Target, c: Coord)
    requires TableOk(t) && LogOk(t, log) && Known(t, neu) && Live(t, c) && !Touches(t, neu, c)
    ensures LogOk(t, Kept(log, Body(neu))) && Outcome(t, all, Kept(log, Body(neu)), c) == Outcome(t, all, log, c)
  {
    hide TableOk, Known, Touches, Superseded, Body, Live, At, Base;
    if log != [] {
      var short := log[..|log| - 1];
      var last := log[|log| - 1];
      KeptOutcome(t, all, short, neu, c);
      if Superseded(Body(neu), Body(last.target)) {
        if Touches(t, last.target, c) {
          Covers(t, neu, last.target, c);
        }
      } else {
        var rest := Kept(short, Body(neu));
        assert (rest + [last])[..|rest|] == rest;
      }
    }
  }

  ghost function Compacted(log: Log, r: Request): Log
    requires r.Rule? && forall i :: 0 <= i < |log| ==> log[i].Rule?
  {
    Kept(log, Body(r.target)) + [r]
  }

  lemma KeptOk(t: Table, log: Log, r: Request)
    requires LogOk(t, log) && KnownRule(t, r)
    ensures LogOk(t, Compacted(log, r))
  {
    hide Known, Body;
    var kept := Kept(log, Body(r.target));
    forall i | 0 <= i < |kept| ensures KnownRule(t, kept[i]) {
      assert kept[i] in log;
    }
  }

  /** Applying a rule and compacting the history keeps the history an explanation. */
  lemma RuleKeeps(t: Table, all: bool, log: Log, p: Perm, r: Request, written: string)
    requires TableOk(t) && LogOk(t, log) && KnownRule(t, r) && Explains(t, all, log, p)
    requires r.target.FirstArg? ==> ToLower(written) == r.target.arg
    ensures LogOk(t, Compacted(log, r)) && Explains(t, all, Compacted(log, r), Effect(t, p, r, written))
  {
    KeptOk(t, log, r);
    EffectSane(t, p, r, written);
    var q := Effect(t, p, r, written);
    var short := Kept(log, Body(r.target));
    assert Compacted(log, r)[..|short|] == short;
    forall c | Live(t, c) ensures At(q, c) == Outcome(t, all, Compacted(log, r), c) {
      hide NamesOk, IdsOk, KnownRule, LogOk, Effect, At, Touches, Writes, Body, Superseded, ToLower, Sane;
      EffectAt(t, p, r, written, c);
      if !Touches(t, r.target, c) {
        KeptOutcome(t, all, log, r.target, c);
      }
    }
  }

  /** A rule that a newer one about `neu` makes redundant: about the same thing, or about something below the command. */
  predicate Redundant(neu: Target, prior: Target) {
    prior == neu || (neu.Whole? && (prior.SubOf? || prior.FirstArg?) && prior.name == neu.name)
  }

  lemma SupersededIff(t: Table, neu: Target, prior: Target)
    requires NamesOk(t) && Known(t, neu) && Known(t, prior)
    ensures Superseded(Body(neu), Body(prior)) <==> Redundant(neu, prior)
  {
    if Superseded(Body(neu), Body(prior)) && neu != prior {
      SupersededBelow(t, neu, prior);
    }
    if neu.Whole? && (prior.SubOf? || prior.FirstArg?) && prior.name == neu.name {
      var tail := if prior.SubOf? then prior.sub else prior.arg;
      assert Body(prior) == neu.name + ['|'] + tail;
      assert Body(prior)[..|neu.name|] == neu.name;
    }
  }

  /** Compaction drops exactly the redundant rules and keeps the others. */
  lemma {:induction false} KeptIff(t: Table, log: Log, neu: Target, x: Request)
    requires NamesOk(t) && LogOk(t, log) && Known(t, neu)
    ensures x in Kept(log, Body(neu)) <==> x in log && !Redundant(neu, x.target)
    decreases |log|
  {
    hide NamesOk, Known, Superseded, Body, Redundant;
    if log != [] {
      var short, last := log[..|log| - 1], log[|log| - 1];
      KeptIff(t, short, neu, x);
      SupersededIff(t, neu, last.target);
      assert log == short + [last];
    }
  }

  /** No rule of the history is made redundant by a newer one. */
  ghost predicate Compact(log: Log) {
    && (forall i :: 0 <= i < |log| ==> log[i].Rule?)
    && forall i, j :: 0 <= i < j < |log| ==> !Redundant(log[j].target, log[i].target)
  }

  lemma {:induction false} KeptCompact(log: Log, neu: string)
    requires Compact(log)
    ensures Compact(Kept(log, neu))
    decreases |log|
  {
    hide Redundant, Superseded, Body;
    if log != [] {
      var short, last := log[..|log| - 1], log[|log| - 1];
      assert Compact(short);
      KeptCompact(short, neu);
      var kept := Kept(short, neu);
      forall i | 0 <= i < |kept| ensures !Redundant(last.target, kept[i].target) {
        assert kept[i] in short;
        var j :| 0 <= j < |short| && short[j] == kept[i];
        assert log[j] == short[j];
      }
    }
  }

  lemma CompactedCompact(t: Table, log: Log, r: Request)
    requires NamesOk(t) && LogOk(t, log) && KnownRule(t, r) && Compact(log)
    ensures Compact(Compacted(log, r))
  {
    hide NamesOk, Known, Redundant, Superseded, Body;
    KeptCompact(log, Body(r.target));
    var kept := Kept(log, Body(r.target));
    forall i | 0 <= i < |kept| ensures !Redundant(r.target, kept[i].target) {
      assert kept[i] in kept;
      KeptIff(t, log, r.target, kept[i]);
    }
  }

  /** The start of a history: every command or none. */
  lemma BaseExplained(t: Table, all: bool)
    ensures Explains(t, all, [], Base(all))
  {
  }

  // ---- two permissions with one explanation ----

  /** The same bitmap, and the same first arguments up to case. */
  ghost predicate Same(p: Perm, q: Perm) {
    p.allowed == q.allowed && forall id: nat, arg: string :: HasFirst(p, id, arg) == HasFirst(q, id, arg)
  }

  lemma SameExplanation(t: Table, all: bool, log: Log, p: Perm, q: Perm)
    requires LogOk(t, log) && Explains(t, all, log, p) && Explains(t, all, log, q)
    ensures Same(p, q)
  {
    hide LogOk, Outcome, Holds;
    forall id: nat ensures id in p.allowed <==> id in q.allowed {
      assert At(p, Bit(id)) == At(q, Bit(id));
    }
    forall id: nat, arg: string ensures HasFirst(p, id, arg) == HasFirst(q, id, arg) {
      if Top(t, id) {
        assert At(p, First(id, arg)) == At(q, First(id, arg));
      }
    }
  }

  // ---- running rules one after another ----

  lemma LowerTwice(s: string)
    ensures Lowered(ToLower(s))
  {
    assert forall i :: 0 <= i < |s| ==> ToLower(ToLower(s))[i] == ToLower(s)[i];
  }

  /** What follows the last bar, as written. */
  function Written(op: string): string {
    var k := LastBar(ToLower(op));
    if k < |op| then op[k + 1..] else []
  }

  lemma WrittenLower(t: Table, op: string)
    requires Read(t, ToLower(op)).Rule? && Read(t, ToLower(op)).target.FirstArg?
    ensures ToLower(Written(op)) == Read(t, ToLower(op)).target.arg
  {
    hide Read, LastBar, ToLower, Lowered;
    var lower := ToLower(op);
    var target := Read(t, lower).target;
    LowerTwice(op);
    ReadKnown(t, lower);
    assert lower == ['+'] + (target.name + ['|'] + target.arg);
    var k := 1 + |target.name|;
    assert lower[k] == '|' && lower[k + 1..] == target.arg;
    LastBarUnique(lower, k);
    LowerDrop(op, k + 1);
  }

  lemma LowerDrop(s: string, k: nat)
    requires k <= |s|
    ensures ToLower(s[k..]) == ToLower(s)[k..]
  {
  }

  /** ACLSetSelector on the permissions alone; None is an error. */
  function Do(t: Table, p: Perm, op: string): Option<Perm> {
    var r := Read(t, ToLower(op));
    match r
    case Everything => Some(Base(true))
    case Nothing => Some(Base(false))
    case Rule(_, _) =>
      LowerTwice(op);
      ReadKnown(t, ToLower(op));
      Some(Effect(t, p, r, Written(op)))
    case Refused(_) => None
    case Foreign => Some(p)
  }

  function Run(t: Table, p: Perm, ops: seq<string>): Option<Perm> {
    if ops == [] then Some(p)
    else
      var q := Run(t, p, ops[..|ops| - 1]);
      if q.None? then None else Do(t, q.value, ops[|ops| - 1])
  }

  ghost function Words(log: Log): (r: seq<string>)
    requires forall i :: 0 <= i < |log| ==> log[i].Rule?
    ensures |r| == |log| && forall i :: 0 <= i < |r| ==> r[i] == RuleText(log[i].allow, log[i].target)
  {
    seq(|log|, i requires 0 <= i < |log| => RuleText(log[i].allow, log[i].target))
  }

  lemma KnownLowered(t: Table, target: Target)
    requires NamesOk(t) && Known(t, target)
    ensures Lowered(Body(target))
  {
    match target
    case Whole(_) =>
    case SubOf(name, sub) => LoweredJoin(name, sub);
    case FirstArg(name, arg) => LoweredJoin(name, arg);
    case Category(category) =>
      assert forall i :: 0 <= i < |category| ==> ToLower(category)[i] == category[i];
      assert forall i :: 0 <= i < |category| + 1 ==> ToLower(['@'] + category)[i] == (['@'] + category)[i];
  }

  lemma LoweredJoin(a: string, b: string)
    requires Lowered(a) && Lowered(b)
    ensures Lowered(a + ['|'] + b)
  {
    assert forall i :: 0 <= i < |a| ==> ToLower(a)[i] == a[i];
    assert forall i :: 0 <= i < |b| ==> ToLower(b)[i] == b[i];
    var s := a + ['|'] + b;
    assert forall i :: 0 <= i < |s| ==> ToLower(s)[i] == s[i];
  }

  lemma RuleTextLowered(t: Table, r: Request)
    requires NamesOk(t) && KnownRule(t, r)
    ensures ToLower(RuleText(r.allow, r.target)) == RuleText(r.allow, r.target)
  {
    hide NamesOk, Known, Body;
    KnownLowered(t, r.target);
    var body := Body(r.target);
    var s := RuleText(r.allow, r.target);
    assert forall i :: 0 <= i < |body| ==> ToLower(body)[i] == body[i];
    assert forall i :: 0 <= i < |s| ==> ToLower(s)[i] == s[i];
  }

  /** Setting a rule from its own text has the rule's effect. */
  lemma DoRuleText(t: Table, p: Perm, r: Request)
    requires NamesOk(t) && KnownRule(t, r)
    ensures var text := RuleText(r.allow, r.target);
      Do(t, p, text) == Some(Effect(t, p, r, Written(text))) && (r.target.FirstArg? ==> ToLower(Written(text)) == r.target.arg)
  {
    hide NamesOk, Read, RuleText, Written, Effect;
    var text := RuleText(r.allow, r.target);
    RuleTextLowered(t, r);
    ReadRuleText(t, r.allow, r.target);
    if r.target.FirstArg? {
      WrittenLower(t, text);
    }
  }

  lemma RuleExplains(t: Table, all: bool, log: Log, p: Perm, r: Request, written: string)
    requires TableOk(t) && LogOk(t, log) && KnownRule(t, r) && Explains(t, all, log, p)
    requires r.target.FirstArg? ==> ToLower(written) == r.target.arg
    ensures LogOk(t, log + [r]) && Explains(t, all, log + [r], Effect(t, p, r, written))
  {
    EffectSane(t, p, r, written);
    assert (log + [r])[..|log|] == log;
    forall c | Live(t, c) ensures At(Effect(t, p, r, written), c) == Outcome(t, all, log + [r], c) {
      hide NamesOk, IdsOk, KnownRule, LogOk, Effect, At, Touches, Writes, ToLower, Sane;
      EffectAt(t, p, r, written, c);
    }
  }

  /** Running the words of a history from its start gives what the history explains. */
  lemma {:induction false} RunExplained(t: Table, all: bool, log: Log)
    requires TableOk(t) && LogOk(t, log)
    ensures Run(t, Base(all), Words(log)).Some? && Explains(t, all, log, Run(t, Base(all), Words(log)).value)
  {
    hide NamesOk, IdsOk, Explains, Do, Effect, RuleText, Written, Known;
    if log == [] {
      BaseExplained(t, all);
    } else {
      var short, last := log[..|log| - 1], log[|log| - 1];
      RunExplained(t, all, short);
      assert Words(log)[..|log| - 1] == Words(short);
      var p := Run(t, Base(all), Words(short)).value;
      DoRuleText(t, p, last);
      RuleExplains(t, all, short, p, last, Written(RuleText(last.allow, last.target)));
      assert short + [last] == log;
    }
  }

  /**
    A compacted history, run again from +@all or -@all as the reserved bit
    says, gives the same bitmap and the same first arguments.
    */
  lemma ReplayGivesSame(t: Table, log: Log, p: Perm)
    requires TableOk(t) && LogOk(t, log) && Explains(t, RESERVED in p.allowed, log, p)
    ensures var q := Run(t, Base(RESERVED in p.allowed), Words(log)); q.Some? && Same(q.value, p)
  {
    hide TableOk, Known, Explains, Run, Same;
    var all := RESERVED in p.allowed;
    RunExplained(t, all, log);
    SameExplanation(t, all, log, Run(t, Base(all), Words(log)).value, p);
  }

  // ---- every run ----

  /** A selector with its compacted history. */
  datatype Tracked = Tracked(perm: Perm, log: Log)

  ghost function Next(t: Table, s: Tracked, op: string): Tracked
    requires LogOk(t, s.log)
  {
    var r := Read(t, ToLower(op));
    var q := Do(t, s.perm, op);
    if q.None? then s
    else if r.Everything? || r.Nothing? then Tracked(q.value, [])
    else if r.Rule? then Tracked(q.value, Compacted(s.log, r))
    else s
  }

  /** The selector after a run of calls from -@all; refused calls change nothing. */
  ghost function After(t: Table, ops: seq<string>): (s: Tracked)
    requires TableOk(t)
    ensures LogOk(t, s.log) && Explains(t, RESERVED in s.perm.allowed, s.log, s.perm)
  {
    if ops == [] then
      BaseExplained(t, false);
      Tracked(Base(false), [])
    else
      var s := After(t, ops[..|ops| - 1]);
      NextExplained(t, s, ops[|ops| - 1]);
      Next(t, s, ops[|ops| - 1])
  }

  lemma NextExplained(t: Table, s: Tracked, op: string)
    requires TableOk(t) && LogOk(t, s.log) && Explains(t, RESERVED in s.perm.allowed, s.log, s.perm)
    ensures var n := Next(t, s, op);
      LogOk(t, n.log) && Explains(t, RESERVED in n.perm.allowed, n.log, n.perm)
  {
    hide TableOk, Read, Effect, Explains, ToLower, Written, Lowered, Outcome;
    var r := Read(t, ToLower(op));
    BaseExplained(t, true);
    BaseExplained(t, false);
    if r.Rule? {
      LowerTwice(op);
      ReadKnown(t, ToLower(op));
      if r.target.FirstArg? {
        WrittenLower(t, op);
      }
      RuleKeeps(t, RESERVED in s.perm.allowed, s.log, s.perm, r, Written(op));
      assert RESERVED in Effect(t, s.perm, r, Written(op)).allowed <==> RESERVED in s.perm.allowed by {
        ReservedStays(t, s.log, s.perm, r, Written(op));
      }
    }
  }

  lemma ReservedStays(t: Table, log: Log, p: Perm, r: Request, written: string)
    requires TableOk(t) && LogOk(t, log) && KnownRule(t, r) && Explains(t, RESERVED in p.allowed, log, p)
    ensures RESERVED in Effect(t, p, r, written).allowed <==> RESERVED in p.allowed
  {
    EffectSane(t, p, r, written);
  }

  /** After every run of calls no rule is kept that a newer one makes redundant. */
  lemma {:induction false} EveryRunIsCompact(t: Table, ops: seq<string>)
    requires TableOk(t)
    ensures Compact(After(t, ops).log)
    decreases |ops|
  {
    hide NamesOk, IdsOk, Compact, Read, Explains, ToLower, Effect, Written, Lowered;
    if ops == [] {
      NothingCompact();
    } else {
      var s, op := After(t, ops[..|ops| - 1]), ops[|ops| - 1];
      EveryRunIsCompact(t, ops[..|ops| - 1]);
      NothingCompact();
      var r := Read(t, ToLower(op));
      if r.Rule? {
        LowerTwice(op);
        ReadKnown(t, ToLower(op));
        CompactedCompact(t, s.log, r);
      }
    }
  }

  lemma NothingCompact()
    ensures Compact([])
  {
  }

  /** After every run of calls, the compacted rules replay to exactly the live permissions. */
  lemma EveryRunReplays(t: Table, ops: seq<string>)
    requires TableOk(t)
    ensures var s := After(t, ops);
      var q := Run(t, Base(RESERVED in s.perm.allowed), Words(s.log));
      q.Some? && Same(q.value, s.perm)
  {
    var s := After(t, ops);
    ReplayGivesSame(t, s.log, s.perm);
  }
}
