/**
  The command table of the ACL code, the lookup of command names in it, and
  the reading of one command rule (ACLSetSelector's command branches).
  All text here is already in lower case; names in the table are.
  */
module AclTable {
  import opened Wrappers
  import opened SdsText

  datatype Sub = Sub(id: nat, categories: set<string>)

  datatype Command = Command(id: nat, categories: set<string>, subs: map<string, Sub>)

  /** server.orig_commands, with the names of the known categories. */
  datatype Table = Table(commands: map<string, Command>, categories: set<string>)

  /** The bit that no command has (USER_COMMAND_BITS_COUNT - 1). */
  const RESERVED: nat := 1023

  ghost predicate Lowered(s: string) { ToLower(s) == s }

  /** A word that can stand in a rule: it holds no separator. */
  ghost predicate Word(s: string) {
    s != [] && Lowered(s) && '|' !in s && forall i :: 0 <= i < |s| ==> BareChar(s[i])
  }

  ghost predicate NamesOk(t: Table) {
    && (forall n <- t.commands :: Word(n) && n[0] != '@' && forall s <- t.commands[n].subs :: Word(s))
    && (forall c <- t.categories :: Word(c) && c != "all")
  }

  ghost predicate IdsOk(t: Table) {
    && (forall n <- t.commands :: t.commands[n].id < RESERVED)
    && (forall n <- t.commands :: forall s <- t.commands[n].subs :: t.commands[n].subs[s].id < RESERVED)
    && (forall m <- t.commands, n <- t.commands :: t.commands[m].id == t.commands[n].id ==> m == n)
    && (forall m <- t.commands, n <- t.commands :: forall s <- t.commands[n].subs ::
          t.commands[m].id != t.commands[n].subs[s].id)
  }

  ghost predicate TableOk(t: Table) { NamesOk(t) && IdsOk(t) }

  // ---- lookup ----

  /** What a rule is about. */
  datatype Target =
    | Whole(name: string)
    | SubOf(name: string, sub: string)
    | FirstArg(name: string, arg: string)
    | Category(category: string)

  /** The position of the first bar, or the length. */
  function FirstBar(s: string): (k: nat)
    ensures k <= |s| && '|' !in s[..k]
    ensures k < |s| ==> s[k] == '|'
  {
    if s == [] || s[0] == '|' then 0
    else
      var k := FirstBar(s[1..]);
      assert s[..k + 1] == [s[0]] + s[1..][..k];
      k + 1
  }

  /** The position of the last bar (strrchr), or the length if there is none. */
  function LastBar(s: string): (k: nat)
    ensures k <= |s|
    ensures k == |s| <==> '|' !in s
    ensures k < |s| ==> s[k] == '|' && '|' !in s[k + 1..]
  {
    if s == [] then 0
    else
      var k := LastBar(s[1..]);
      assert s == [s[0]] + s[1..];
      if k < |s| - 1 then
        assert s[k + 2..] == s[1..][k + 1..];
        k + 1
      else if s[0] == '|' then 0
      else |s|
  }

  /** ACLLookupCommand: at most one bar, and a bar only below a container. */
  function Lookup(t: Table, s: string): Option<Target> {
    var k := FirstBar(s);
    if k == |s| then
      if s in t.commands then Some(Whole(s)) else None
    else if '|' in s[k + 1..] then None
    else if s[..k] in t.commands && s[k + 1..] in t.commands[s[..k]].subs then Some(SubOf(s[..k], s[k + 1..]))
    else None
  }

  // ---- reading a rule ----

  datatype Errno = ENOENT | ECHILD | EINVAL

  datatype Request =
    | Everything
    | Nothing
    | Rule(allow: bool, target: Target)
    | Refused(errno: Errno)
    | Foreign // no command rule: keys, channels or unknown

  predicate IsEverything(op: string) { op == "allcommands" || op == "+@all" }

  predicate IsNothing(op: string) { op == "nocommands" || op == "-@all" }

  function ReadAllow(t: Table, rule: string): Request {
    var k := LastBar(rule);
    if k == |rule| then
      var found := Lookup(t, rule);
      if found.None? then Refused(ENOENT) else Rule(true, found.value)
    else
      var found := Lookup(t, rule[..k]);
      if found.None? then Refused(ENOENT)
      else if !found.value.Whole? then Refused(ECHILD)
      else if rule[k + 1..] == [] then Refused(EINVAL)
      else if found.value.name in t.commands && t.commands[found.value.name].subs != map[] then
        var sub := Lookup(t, rule);
        if sub.None? then Refused(ENOENT) else Rule(true, sub.value)
      else Rule(true, FirstArg(found.value.name, rule[k + 1..]))
  }

  function ReadDeny(t: Table, rule: string): Request {
    var found := Lookup(t, rule);
    if found.None? then Refused(ENOENT) else Rule(false, found.value)
  }

  function ReadCategory(t: Table, name: string, allow: bool): Request {
    if name in t.categories then Rule(allow, Category(name)) else Refused(ENOENT)
  }

  /** The command branches of ACLSetSelector, on lower-case text. */
  function Read(t: Table, op: string): Request {
    if IsEverything(op) then Everything
    else if IsNothing(op) then Nothing
    else if op == [] || (op[0] != '+' && op[0] != '-') then Foreign
    else if |op| > 1 && op[1] == '@' then ReadCategory(t, op[2..], op[0] == '+')
    else if op[0] == '+' then ReadAllow(t, op[1..])
    else ReadDeny(t, op[1..])
  }

  // ---- the text of a rule ----

  function Body(target: Target): string {
    match target
    case Whole(name) => name
    case SubOf(name, sub) => name + ['|'] + sub
    case FirstArg(name, arg) => name + ['|'] + arg
    case Category(category) => ['@'] + category
  }

  function Sign(allow: bool): char { if allow then '+' else '-' }

  function RuleText(allow: bool, target: Target): string { [Sign(allow)] + Body(target) }

  /** The targets that rules have: what the table knows, and any nonempty bar-free first argument. */
  ghost predicate Known(t: Table, target: Target) {
    match target
    case Whole(name) => name in t.commands
    case SubOf(name, sub) => name in t.commands && sub in t.commands[name].subs
    case FirstArg(name, arg) =>
      name in t.commands && t.commands[name].subs == map[] && arg != [] && '|' !in arg && Lowered(arg)
    case Category(category) => category in t.categories
  }

  ghost predicate KnownRule(t: Table, r: Request) {
    r.Rule? && Known(t, r.target) && (r.target.FirstArg? ==> r.allow)
  }

  lemma LookupKnown(t: Table, s: string)
    ensures Lookup(t, s).Some? ==> Known(t, Lookup(t, s).value) && Body(Lookup(t, s).value) == s
    ensures Lookup(t, s).Some? ==> !Lookup(t, s).value.FirstArg? && !Lookup(t, s).value.Category?
  {
    var k := FirstBar(s);
    if k < |s| {
      assert s == s[..k] + ['|'] + s[k + 1..];
    }
  }

  /** What is read is known to the table, and its text is the text it was read from. */
  lemma ReadKnown(t: Table, op: string)
    requires Lowered(op)
    ensures Read(t, op).Rule? ==> KnownRule(t, Read(t, op)) && RuleText(Read(t, op).allow, Read(t, op).target) == op
  {
    hide Lookup;
    if Read(t, op).Rule? {
      var rule := op[1..];
      assert op == [op[0]] + rule;
      if |op| > 1 && op[1] == '@' {
        assert rule == ['@'] + op[2..];
      } else if op[0] == '+' {
        ReadAllowKnown(t, rule);
        LoweredDrop(op, 1);
      } else {
        LookupKnown(t, rule);
      }
    }
  }

  lemma LoweredDrop(s: string, i: nat)
    requires Lowered(s) && i <= |s|
    ensures Lowered(s[i..])
  {
    forall k | 0 <= k < |s| - i ensures ToLower(s[i..])[k] == s[i..][k] {
      assert ToLower(s)[i + k] == s[i + k];
    }
  }

  lemma ReadAllowKnown(t: Table, rule: string)
    ensures ReadAllow(t, rule).Rule? && Lowered(rule) ==>
              KnownRule(t, ReadAllow(t, rule)) && ReadAllow(t, rule).allow && Body(ReadAllow(t, rule).target) == rule
  {
    hide Lookup, LastBar, Known, Lowered;
    var k := LastBar(rule);
    LookupKnown(t, rule);
    if k < |rule| && Lowered(rule) {
      var found := Lookup(t, rule[..k]);
      if found.Some? && found.value.Whole? && rule[k + 1..] != [] {
        LookupKnown(t, rule[..k]);
        FirstArgKnown(t, rule, k);
      }
    }
  }

  lemma FirstArgKnown(t: Table, rule: string, k: nat)
    requires k + 1 < |rule| && rule[k] == '|' && '|' !in rule[k + 1..] && Lowered(rule)
    requires Known(t, Whole(rule[..k]))
    ensures t.commands[rule[..k]].subs == map[] ==> Known(t, FirstArg(rule[..k], rule[k + 1..]))
    ensures Body(FirstArg(rule[..k], rule[k + 1..])) == rule
  {
    hide Lowered;
    LoweredDrop(rule, k + 1);
    assert rule == rule[..k] + ['|'] + rule[k + 1..];
  }

  // ---- a rule's own text reads back as the rule ----

  lemma FirstBarUnique(s: string, k: nat)
    requires k <= |s| && '|' !in s[..k] && (k < |s| ==> s[k] == '|')
    ensures FirstBar(s) == k
  {
    assert forall i :: 0 <= i < k ==> s[i] in s[..k];
    assert forall i :: 0 <= i < FirstBar(s) ==> s[i] in s[..FirstBar(s)];
  }

  lemma LastBarUnique(s: string, k: nat)
    requires k < |s| && s[k] == '|' && '|' !in s[k + 1..]
    ensures LastBar(s) == k
  {
    var l := LastBar(s);
    assert forall i :: k < i < |s| ==> s[i] in s[k + 1..];
    assert l < |s| ==> forall i :: l < i < |s| ==> s[i] in s[l + 1..];
  }

  lemma LookupWhole(t: Table, name: string)
    requires NamesOk(t) && name in t.commands
    ensures Lookup(t, name) == Some(Whole(name))
  {
    assert name[..|name|] == name;
    FirstBarUnique(name, |name|);
  }

  lemma LookupSub(t: Table, name: string, sub: string)
    requires NamesOk(t) && name in t.commands && sub in t.commands[name].subs
    ensures Lookup(t, name + ['|'] + sub) == Some(SubOf(name, sub))
  {
    var s := name + ['|'] + sub;
    assert s[..|name|] == name && s[|name| + 1..] == sub;
    FirstBarUnique(s, |name|);
  }

  lemma ReadAllowBody(t: Table, target: Target)
    requires NamesOk(t) && Known(t, target) && !target.Category?
    ensures ReadAllow(t, Body(target)) == Rule(true, target)
  {
    hide Lookup, Lowered;
    LookupWhole(t, target.name);
    if !target.Whole? {
      var tail := if target.SubOf? then target.sub else target.arg;
      var s := target.name + ['|'] + tail;
      assert s[..|target.name|] == target.name && s[|target.name| + 1..] == tail;
      LastBarUnique(s, |target.name|);
      if target.SubOf? {
        LookupSub(t, target.name, tail);
      }
    }
  }

  lemma ReadDenyBody(t: Table, target: Target)
    requires NamesOk(t) && Known(t, target) && !target.Category? && !target.FirstArg?
    ensures ReadDeny(t, Body(target)) == Rule(false, target)
  {
    hide Lookup, Lowered;
    if target.Whole? {
      LookupWhole(t, target.name);
    } else {
      LookupSub(t, target.name, target.sub);
    }
  }

  /** No rule's text is one of the words for all or no commands. */
  lemma RuleTextPlain(t: Table, allow: bool, target: Target)
    requires NamesOk(t) && Known(t, target)
    ensures !IsEverything(RuleText(allow, target)) && !IsNothing(RuleText(allow, target))
    ensures !target.Category? ==> Body(target) != [] && Body(target)[0] != '@'
  {
    if target.Category? {
      CategoryPlain(t, allow, target.category);
    } else {
      assert Body(target)[0] == target.name[0];
      NotAWord(RuleText(allow, target), allow);
    }
  }

  lemma NotAWord(s: string, allow: bool)
    requires |s| > 1 && s[0] == Sign(allow) && s[1] != '@'
    ensures !IsEverything(s) && !IsNothing(s)
  {
    assert "+@all"[1] == '@' && "-@all"[1] == '@' && "allcommands"[0] == 'a' && "nocommands"[0] == 'n';
  }

  lemma CategoryPlain(t: Table, allow: bool, category: string)
    requires NamesOk(t) && category in t.categories
    ensures !IsEverything(RuleText(allow, Category(category))) && !IsNothing(RuleText(allow, Category(category)))
  {
    var s := RuleText(allow, Category(category));
    assert s[0] == Sign(allow) && s[2..] == category && category != "all";
    assert "+@all"[2..] == "all" && "-@all"[2..] == "all" && "allcommands"[0] == 'a' && "nocommands"[0] == 'n';
  }

  /** The text of a rule reads back as that rule. */
  lemma ReadRuleText(t: Table, allow: bool, target: Target)
    requires NamesOk(t) && KnownRule(t, Rule(allow, target))
    ensures Read(t, RuleText(allow, target)) == Rule(allow, target)
  {
    hide IsEverything, IsNothing, ReadAllow, ReadDeny, NamesOk, Lowered;
    RuleTextPlain(t, allow, target);
    var s := RuleText(allow, target);
    assert s[0] == Sign(allow) && s[1..] == Body(target);
    if target.Category? {
      assert s[2..] == target.category;
    } else {
      assert s[1] == Body(target)[0];
      if allow {
        ReadAllowBody(t, target);
      } else {
        ReadDenyBody(t, target);
      }
    }
  }

  /** Different targets have different texts. */
  lemma BodyInjective(t: Table, x: Target, y: Target)
    requires NamesOk(t) && Known(t, x) && Known(t, y) && Body(x) == Body(y)
    ensures x == y
  {
    hide NamesOk, Known, Read, Body;
    ReadRuleText(t, true, x);
    ReadRuleText(t, true, y);
  }
}
