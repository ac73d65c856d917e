/**
  What the words of a rule do to the permissions, each in its own terms: the
  text of the word on one side, bits and first arguments on the other.
  */
module AclWords {
  import opened Wrappers
  import opened SdsText
  import opened AclTable
  import opened AclRules

  /** The two words for every command and the two for none. */
  lemma AllOrNothing(t: Table, p: Perm, op: string)
    ensures ToLower(op) == "allcommands" || ToLower(op) == "+@all" ==>
      Do(t, p, op).Some? && Do(t, p, op).value.firsts == map[] && forall i: nat :: i in Do(t, p, op).value.allowed <==> i < 1024
    ensures ToLower(op) == "nocommands" || ToLower(op) == "-@all" ==> Do(t, p, op) == Some(Perm({}, map[]))
  {
    var w := ToLower(op);
    assert "nocommands"[0] == 'n' && "allcommands"[0] == 'a' && "+@all"[0] == '+' && "-@all"[0] == '-';
    hide ToLower;
  }

  lemma DoRule(t: Table, p: Perm, op: string, allow: bool, target: Target)
    requires TableOk(t) && Known(t, target) && (target.FirstArg? ==> allow) && ToLower(op) == RuleText(allow, target)
    ensures Do(t, p, op) == Some(Effect(t, p, Rule(allow, target), Written(op)))
    ensures target.FirstArg? ==> ToLower(Written(op)) == target.arg
  {
    hide Read, ToLower, RuleText, Known, Effect, Written, NamesOk, IdsOk;
    ReadRuleText(t, allow, target);
    if target.FirstArg? {
      WrittenLower(t, op);
    }
  }

  /** `+name` and `-name`: the command with all its subcommands, and its first arguments go. */
  lemma CommandWord(t: Table, p: Perm, op: string, allow: bool, name: string)
    requires TableOk(t) && name in t.commands && ToLower(op) == [if allow then '+' else '-'] + name
    ensures var c := t.commands[name];
      var ids := {c.id} + set s | s in c.subs :: c.subs[s].id;
      Do(t, p, op) == Some(Perm(if allow then p.allowed + ids else p.allowed - ids, p.firsts - {c.id}))
  {
    hide NamesOk, IdsOk, Do, Written;
    DoRule(t, p, op, allow, Whole(name));
  }

  /** `+name|sub` and `-name|sub`: the subcommand alone. */
  lemma SubcommandWord(t: Table, p: Perm, op: string, allow: bool, name: string, sub: string)
    requires TableOk(t) && name in t.commands && sub in t.commands[name].subs
    requires ToLower(op) == [if allow then '+' else '-'] + (name + ['|'] + sub)
    ensures var id := t.commands[name].subs[sub].id;
      Do(t, p, op) == Some(Perm(if allow then p.allowed + {id} else p.allowed - {id}, p.firsts - {id}))
  {
    hide NamesOk, IdsOk, Do, Written;
    DoRule(t, p, op, allow, SubOf(name, sub));
  }

  /** `+@category` and `-@category`: the flagged commands with their subcommands, and the flagged subcommands. */
  lemma CategoryWord(t: Table, p: Perm, op: string, allow: bool, category: string)
    requires TableOk(t) && category in t.categories && ToLower(op) == [if allow then '+' else '-', '@'] + category
    ensures var tops := set n | n in t.commands && category in t.commands[n].categories :: t.commands[n].id;
      var below := set n, s | n in t.commands && category in t.commands[n].categories && s in t.commands[n].subs :: t.commands[n].subs[s].id;
      var subs := set n, s | n in t.commands && s in t.commands[n].subs && category in t.commands[n].subs[s].categories :: t.commands[n].subs[s].id;
      var ids := tops + below + subs;
      Do(t, p, op) == Some(Perm(if allow then p.allowed + ids else p.allowed - ids, p.firsts - (tops + subs)))
  {
    hide NamesOk, IdsOk, Do, Written, WholesIn, TopsIn, SubsIn, RuleText, ToLower;
    CategoryText(allow, category);
    CategoryBits(t, category);
    DoRule(t, p, op, allow, Category(category));
  }

  lemma CategoryText(allow: bool, category: string)
    ensures [if allow then '+' else '-', '@'] + category == RuleText(allow, Category(category))
  {
  }

  lemma CategoryBits(t: Table, category: string)
    ensures var tops := set n | n in t.commands && category in t.commands[n].categories :: t.commands[n].id;
      var below := set n, s | n in t.commands && category in t.commands[n].categories && s in t.commands[n].subs :: t.commands[n].subs[s].id;
      var subs := set n, s | n in t.commands && s in t.commands[n].subs && category in t.commands[n].subs[s].categories :: t.commands[n].subs[s].id;
      WholesIn(t, category) == tops + below && TopsIn(t, category) == tops && SubsIn(t, category) == subs
  {
    var tops := set n | n in t.commands && category in t.commands[n].categories :: t.commands[n].id;
    var below := set n, s | n in t.commands && category in t.commands[n].categories && s in t.commands[n].subs :: t.commands[n].subs[s].id;
    forall i ensures i in WholesIn(t, category) <==> i in tops + below {
      if i in WholesIn(t, category) {
        var n :| n in t.commands && category in t.commands[n].categories && i in WholeBits(t.commands[n]);
      }
      if i in below {
        var n, s :| n in t.commands && category in t.commands[n].categories && s in t.commands[n].subs && t.commands[n].subs[s].id == i;
        assert i in WholeBits(t.commands[n]);
      }
      if i in tops {
        var n :| n in t.commands && category in t.commands[n].categories && t.commands[n].id == i;
        assert i in WholeBits(t.commands[n]);
      }
    }
  }

  /** `+name|arg` on a command without subcommands: the first argument joins, as written, unless it is there in some case. */
  lemma FirstArgWord(t: Table, p: Perm, op: string, name: string, arg: string)
    requires TableOk(t) && name in t.commands && t.commands[name].subs == map[] && arg != [] && '|' !in arg
    requires ToLower(op) == ['+'] + (name + ['|'] + arg)
    ensures Do(t, p, op).Some?
    ensures var q, id := Do(t, p, op).value, t.commands[name].id;
      && q.allowed == p.allowed && (forall other :: other in p.firsts && other != id ==> other in q.firsts && q.firsts[other] == p.firsts[other])
      && q.firsts.Keys <= p.firsts.Keys + {id}
      && id in q.firsts && (exists k :: 0 <= k < |q.firsts[id]| && ToLower(q.firsts[id][k]) == arg)
      && (id in p.firsts && (exists k :: 0 <= k < |p.firsts[id]| && ToLower(p.firsts[id][k]) == arg) ==> q == p)
  {
    hide NamesOk, IdsOk, Do, ToLower, Lowered, AddFirst, Written;
    ArgLowered(op, name, arg);
    FirstArgText(name, arg);
    DoRule(t, p, op, true, FirstArg(name, arg));
    AddFirstMeans(p, t.commands[name].id, Written(op), arg);
  }

  lemma FirstArgText(name: string, arg: string)
    ensures ['+'] + (name + ['|'] + arg) == RuleText(true, FirstArg(name, arg))
  {
  }

  lemma AddFirstMeans(p: Perm, id: nat, written: string, arg: string)
    requires ToLower(written) == arg
    ensures var q := AddFirst(p, id, written);
      && q.allowed == p.allowed && (forall other :: other in p.firsts && other != id ==> other in q.firsts && q.firsts[other] == p.firsts[other])
      && q.firsts.Keys <= p.firsts.Keys + {id}
      && id in q.firsts && (exists k :: 0 <= k < |q.firsts[id]| && ToLower(q.firsts[id][k]) == arg)
      && (id in p.firsts && (exists k :: 0 <= k < |p.firsts[id]| && ToLower(p.firsts[id][k]) == arg) ==> q == p)
  {
    hide ToLower;
    HoldsAppend(FirstsOf(p, id), written, arg);
  }

  lemma ArgLowered(op: string, name: string, arg: string)
    requires ToLower(op) == ['+'] + (name + ['|'] + arg)
    ensures Lowered(arg)
  {
    LowerTwice(op);
    var w := ToLower(op);
    assert w[|name| + 2..] == arg;
    LoweredDrop(w, |name| + 2);
  }

  // ---- refusals ----

  /** A sign and a word without a bar that is no command is refused, and so is an unknown category. */
  lemma UnknownWord(t: Table, p: Perm, op: string, allow: bool, w: string)
    requires ToLower(op) == [if allow then '+' else '-'] + w && '|' !in w && w !in t.commands
    requires w != [] && w[0] == '@' ==> w[1..] !in t.categories && w != "@all"
    ensures Do(t, p, op) == None && Read(t, ToLower(op)) == Refused(ENOENT)
  {
    var s := ToLower(op);
    hide ToLower;
    assert s[0] == (if allow then '+' else '-') && s[1..] == w;
    assert "allcommands"[0] == 'a' && "nocommands"[0] == 'n';
    assert "+@all"[1..] == "@all" && "-@all"[1..] == "@all";
    assert w != [] ==> s[1] == w[0] && s[2..] == w[1..];
  }

  /** A sign and a rule that is no category are read by the sign. */
  lemma ReadSigned(t: Table, s: string, allow: bool, rule: string)
    requires s == [if allow then '+' else '-'] + rule && rule != [] && rule[0] != '@'
    ensures Read(t, s) == if allow then ReadAllow(t, rule) else ReadDeny(t, rule)
  {
    hide ReadAllow, ReadDeny;
    assert s[1..] == rule && s[1] == rule[0];
    assert "+@all"[1] == '@' && "-@all"[1] == '@' && "nocommands"[0] == 'n' && "allcommands"[0] == 'a';
  }

  lemma NameStart(t: Table, name: string, arg: string)
    requires NamesOk(t) && name in t.commands
    ensures var rule := name + ['|'] + arg; rule != [] && rule[0] != '@' && '|' !in name
    ensures var rule := name + ['|'] + arg; rule[..|name|] == name && rule[|name| + 1..] == arg && rule[|name|] == '|'
  {
    assert Word(name);
  }

  lemma LookupBelow(t: Table, name: string, arg: string)
    requires NamesOk(t) && name in t.commands && '|' !in arg && arg !in t.commands[name].subs
    ensures Lookup(t, name + ['|'] + arg) == None
  {
    NameStart(t, name, arg);
    hide NamesOk, FirstBar;
    FirstBarUnique(name + ['|'] + arg, |name|);
  }

  /** Only subcommands can be denied below a command: `-name|arg` is refused. */
  lemma DeniedArg(t: Table, p: Perm, op: string, name: string, arg: string)
    requires TableOk(t) && name in t.commands && arg !in t.commands[name].subs && '|' !in arg
    requires ToLower(op) == ['-'] + (name + ['|'] + arg)
    ensures Do(t, p, op) == None && Read(t, ToLower(op)) == Refused(ENOENT)
  {
    hide ToLower, NamesOk, IdsOk, Read, Lookup;
    NameStart(t, name, arg);
    ReadSigned(t, ToLower(op), false, name + ['|'] + arg);
    LookupBelow(t, name, arg);
  }

  /** `+name|` names nothing, and below a container only its subcommands can be named. */
  lemma NamesNothing(t: Table, p: Perm, op: string, name: string, arg: string)
    requires TableOk(t) && name in t.commands && '|' !in arg
    requires arg == [] || (t.commands[name].subs != map[] && arg !in t.commands[name].subs)
    requires ToLower(op) == ['+'] + (name + ['|'] + arg)
    ensures Do(t, p, op) == None && Read(t, ToLower(op)) == Refused(if arg == [] then EINVAL else ENOENT)
  {
    hide ToLower, NamesOk, IdsOk, Read, Lookup, LastBar;
    NameStart(t, name, arg);
    ReadSigned(t, ToLower(op), true, name + ['|'] + arg);
    LastBarUnique(name + ['|'] + arg, |name|);
    LookupWhole(t, name);
    if arg != [] {
      LookupBelow(t, name, arg);
    }
  }
}
