/**
  The text form of a selector's rules: words with one blank between two, and
  the in-place removal of superseded words from it.
  */
module AclText {
  import opened Basics
  import opened Wrappers
  import opened SdsText
  import opened AclTable
  import opened AclRules

  function Join(words: seq<string>): string {
    if words == [] then []
    else if |words| == 1 then words[0]
    else words[0] + [' '] + Join(words[1..])
  }

  /** A nonempty word without blanks. */
  ghost predicate Solid(w: string) { w != [] && ' ' !in w }

  ghost predicate AllSolid(words: seq<string>) { forall i :: 0 <= i < |words| ==> Solid(words[i]) }

  /** The words left when those superseded by `neu` go; a word's sign is not compared. */
  function Left(words: seq<string>, neu: string): (r: seq<string>)
  {
    if words == [] then []
    else if words[0] != [] && Superseded(neu, words[0][1..]) then Left(words[1..], neu)
    else [words[0]] + Left(words[1..], neu)
  }

  // ---- joining ----

  /** The text before the words `todo`, when `kept` comes first. */
  ghost function Lead(kept: seq<string>, todo: seq<string>): string {
    if kept == [] || todo == [] then Join(kept) else Join(kept) + [' ']
  }

  lemma {:induction false} JoinAppend(words: seq<string>, w: string)
    ensures Join(words + [w]) == if words == [] then w else Join(words) + [' '] + w
    decreases |words|
  {
    if words == [] {
      assert words + [w] == [w];
    } else {
      assert (words + [w])[1..] == words[1..] + [w];
      JoinAppend(words[1..], w);
      if |words| == 1 {
        assert words[1..] == [];
      } else {
        assert words[0] + [' '] + (Join(words[1..]) + [' '] + w) == words[0] + [' '] + Join(words[1..]) + [' '] + w;
      }
    }
  }

  lemma JoinFirst(words: seq<string>)
    requires words != []
    ensures Join(words) == words[0] + (if |words| == 1 then [] else [' '] + Join(words[1..]))
  {
  }

  /** Where the first word of the rest ends. */
  lemma WordEnd(lead: string, todo: seq<string>)
    requires todo != [] && AllSolid(todo)
    ensures var s := lead + Join(todo);
      |lead| + 1 <= |s| && Find(s, ' ', |lead| + 1) == |lead| + |todo[0]| && s[|lead|..|lead| + |todo[0]|] == todo[0]
  {
    JoinFirst(todo);
    var w := todo[0];
    var s := lead + Join(todo);
    var end := |lead| + |w|;
    assert Solid(w);
    assert s[|lead|..end] == w;
    assert forall i :: |lead| <= i < end ==> s[i] == w[i - |lead|] && s[i] in w;
    assert end < |s| ==> s[end] == ' ';
    assert |todo| == 1 ==> end == |s|;
    assert |todo| > 1 ==> end < |s|;
  }

  // ---- removal ----

  /** What one turn of the loop does to the text and the position, at the word that ends at `end`. */
  ghost predicate Turn(s: string, p: nat, end: nat, gone: bool, s': string, p': nat)
    requires p < end <= |s|
  {
    var from := if end == |s| && p != 0 then p - 1 else p;
    var next := if end < |s| then end + 1 else end;
    if gone then s' == s[..from] + s[next..] && p' == from
    else s' == s && p' == next
  }

  /** A turn takes the first word of the rest over to the kept ones, or drops it. */
  lemma TurnStep(kept: seq<string>, todo: seq<string>, gone: bool, s': string, p': nat)
    requires todo != [] && AllSolid(todo)
    requires var lead := Lead(kept, todo); var s := lead + Join(todo);
      |lead| + |todo[0]| <= |s| && Turn(s, |lead|, |lead| + |todo[0]|, gone, s', p')
    requires kept != [] ==> Join(kept) != []
    ensures var kept' := if gone then kept else kept + [todo[0]];
      s' == Lead(kept', todo[1..]) + Join(todo[1..]) && p' == |Lead(kept', todo[1..])|
  {
    hide Join;
    JoinFirst(todo);
    JoinAppend(kept, todo[0]);
    var rest := todo[1..];
    var lead := Lead(kept, todo);
    var s := lead + Join(todo);
    var end := |lead| + |todo[0]|;
    if rest == [] {
      assert Join(rest) == [] by { JoinNone(); }
      assert s == lead + todo[0] && end == |s|;
      if gone {
        if kept == [] {
          assert Join(kept) == [] by { JoinNone(); }
        } else {
          assert s[..|lead| - 1] == Join(kept);
        }
      }
    } else {
      assert s == lead + todo[0] + [' '] + Join(rest);
      assert s[end + 1..] == Join(rest);
      if gone {
        assert s[..|lead|] == lead;
      } else {
        if kept == [] {
          assert Join(kept) == [] by { JoinNone(); }
        }
        assert lead + todo[0] + [' '] == Join(kept + [todo[0]]) + [' '];
      }
    }
  }

  lemma JoinNone()
    ensures Join([]) == []
  {
  }

  lemma JoinSome(words: seq<string>)
    requires words != [] && AllSolid(words)
    ensures Join(words) != []
  {
    assert Solid(words[0]);
    JoinFirst(words);
  }

  /** The comparison of the loop: equal on the shorter length, then by length or by a bar. */
  predicate Matches(existing: string, neu: string) {
    var n := if |existing| < |neu| then |existing| else |neu|;
    existing[..n] == neu[..n] && (|existing| == |neu| || (|existing| > |neu| && existing[|neu|] == '|'))
  }

  lemma MatchesSuperseded(existing: string, neu: string)
    ensures Matches(existing, neu) <==> Superseded(neu, existing)
  {
    assert neu[..|neu|] == neu && existing[..|existing|] == existing;
  }

  /** The loop's place in the text: `kept` is behind the position, `todo` ahead of it. */
  ghost predicate Place(words: seq<string>, neu: string, s: string, p: int, kept: seq<string>, todo: seq<string>) {
    && AllSolid(kept) && AllSolid(todo)
    && s == Lead(kept, todo) + Join(todo) && p == |Lead(kept, todo)|
    && Left(words, neu) == kept + Left(todo, neu)
  }

  lemma PlaceTurn(words: seq<string>, neu: string, s: string, p: nat, kept: seq<string>, todo: seq<string>,
                  end: nat, gone: bool, s': string, p': nat)
    requires p < |s| && end == Find(s, ' ', p + 1) && gone == Matches(s[p + 1..end], neu)
    requires Place(words, neu, s, p, kept, todo) && Turn(s, p, end, gone, s', p')
    ensures todo != [] && Place(words, neu, s', p', if gone then kept else kept + [todo[0]], todo[1..])
  {
    hide Lead, Join, Superseded, Left, AllSolid, Matches;
    TodoLeft(s, kept, todo);
    WordEnd(Lead(kept, todo), todo);
    assert s[p + 1..end] == todo[0][1..];
    MatchesSuperseded(todo[0][1..], neu);
    if kept != [] {
      JoinSome(kept);
    }
    TurnStep(kept, todo, gone, s', p');
    LeftStep(words, kept, todo, neu, gone);
  }

  lemma PlaceStart(words: seq<string>, neu: string)
    requires AllSolid(words)
    ensures Place(words, neu, Join(words), 0, [], words)
  {
    JoinNone();
    assert [] + Join(words) == Join(words) && [] + Left(words, neu) == Left(words, neu);
  }

  lemma PlaceEnd(words: seq<string>, neu: string, s: string, p: int, kept: seq<string>, todo: seq<string>)
    requires Place(words, neu, s, p, kept, todo) && p >= |s|
    ensures s == Join(Left(words, neu))
  {
    NothingTodo(kept, todo);
    assert kept + Left(todo, neu) == kept;
  }

  /**
    ACLSelectorRemoveCommandRule. On text that is words joined by blanks it
    drops exactly the superseded words and leaves the rest joined the same way.
    */
  method RemoveRule(rules: string, neu: string, ghost words: seq<string>) returns (s: string)
    ensures AllSolid(words) && rules == Join(words) ==> s == Join(Left(words, neu))
  {
    hide AllSolid, Join, Left, Place, Matches;
    s := rules;
    var p := 0;
    ghost var good := AllSolid(words) && rules == Join(words);
    ghost var kept: seq<string>, todo := [], words;
    if good {
      PlaceStart(words, neu);
    }
    while p < |s|
      invariant 0 <= p <= |s|
      invariant good ==> Place(words, neu, s, p, kept, todo)
      decreases |s| - p
    {
      var copyPosition := p;
      var existing := p + 1;
      var ruleEnd := Find(s, ' ', existing);
      if ruleEnd == |s| && copyPosition != 0 {
        copyPosition := copyPosition - 1;
      }
      var copyEnd := ruleEnd;
      if copyEnd < |s| {
        copyEnd := copyEnd + 1;
      }
      var gone := Matches(s[existing..ruleEnd], neu);
      ghost var before, at := s, p;
      if gone {
        s := s[..copyPosition] + s[copyEnd..];
        p := copyPosition;
      } else {
        p := copyEnd;
      }
      if good {
        PlaceTurn(words, neu, before, at, kept, todo, ruleEnd, gone, s, p);
        kept, todo := if gone then kept else kept + [todo[0]], todo[1..];
      }
    }
    if good {
      PlaceEnd(words, neu, s, p, kept, todo);
    }
  }

  lemma TodoLeft(s: string, kept: seq<string>, todo: seq<string>)
    requires s == Lead(kept, todo) + Join(todo) && |Lead(kept, todo)| < |s|
    ensures todo != []
  {
    JoinNone();
  }

  lemma NothingTodo(kept: seq<string>, todo: seq<string>)
    requires AllSolid(todo) && |Lead(kept, todo)| >= |Lead(kept, todo) + Join(todo)|
    ensures todo == [] && Lead(kept, todo) + Join(todo) == Join(kept)
  {
    if todo != [] {
      JoinSome(todo);
    }
  }

  lemma LeftStep(words: seq<string>, kept: seq<string>, todo: seq<string>, neu: string, gone: bool)
    requires todo != [] && AllSolid(todo) && AllSolid(kept) && Left(words, neu) == kept + Left(todo, neu)
    requires todo[0] != [] && gone == Superseded(neu, todo[0][1..])
    ensures var kept' := if gone then kept else kept + [todo[0]];
      AllSolid(kept') && AllSolid(todo[1..]) && Left(words, neu) == kept' + Left(todo[1..], neu)
  {
    hide Superseded, Solid;
    if !gone {
      assert kept + ([todo[0]] + Left(todo[1..], neu)) == kept + [todo[0]] + Left(todo[1..], neu);
    }
  }

  // ---- the words of a history ----

  lemma {:induction false} LeftAppend(words: seq<string>, w: string, neu: string)
    ensures Left(words + [w], neu) == Left(words, neu) + Left([w], neu)
    decreases |words|
  {
    hide Superseded;
    if words == [] {
      assert words + [w] == [w];
    } else {
      assert (words + [w])[1..] == words[1..] + [w];
      LeftAppend(words[1..], w, neu);
      assert (words + [w])[0] == words[0];
    }
  }

  /** Filtering the words is filtering the history. */
  lemma {:induction false} LeftWords(log: Log, neu: string)
    requires forall i :: 0 <= i < |log| ==> log[i].Rule?
    ensures Left(Words(log), neu) == Words(Kept(log, neu))
    decreases |log|
  {
    hide Superseded, Body;
    if log != [] {
      var short, last := log[..|log| - 1], log[|log| - 1];
      var w := RuleText(last.allow, last.target);
      assert Words(log) == Words(short) + [w];
      LeftAppend(Words(short), w, neu);
      LeftWords(short, neu);
      assert w[1..] == Body(last.target);
      if !Superseded(neu, Body(last.target)) {
        assert Left([w], neu) == [w];
        assert Words(Kept(short, neu) + [last]) == Words(Kept(short, neu)) + [w];
      } else {
        assert Left([w], neu) == [];
      }
    }
  }

  // ---- splitting ----

  /** Bare words joined by blanks are split into the same words. */
  lemma {:induction false} SplitJoin(words: seq<string>)
    requires forall i :: 0 <= i < |words| ==> Bare(words[i])
    ensures SplitArgs(Join(words)) == Some(words)
    decreases |words|
  {
    hide Bare, SplitArgs;
    if words == [] {
      SplitEmpty();
    } else if |words| == 1 {
      SplitLast(words[0]);
      assert words == [words[0]];
    } else {
      SplitJoin(words[1..]);
      SplitBare(words[0], Join(words[1..]));
      assert words == [words[0]] + words[1..];
    }
  }

  /** Bare words, and whatever the text after them splits into. */
  lemma {:induction false} SplitJoinThen(words: seq<string>, tail: string)
    requires forall i :: 0 <= i < |words| ==> Bare(words[i])
    ensures var more := SplitArgs(tail);
            SplitArgs(Join(words + [tail])) == if more.None? then None else Some(words + more.value)
    decreases |words|
  {
    hide Bare, SplitArgs;
    if words == [] {
      assert words + [tail] == [tail];
      assert SplitArgs(tail).Some? ==> words + SplitArgs(tail).value == SplitArgs(tail).value;
    } else {
      assert (words + [tail])[1..] == words[1..] + [tail];
      SplitJoinThen(words[1..], tail);
      SplitBare(words[0], Join(words[1..] + [tail]));
      var more := SplitArgs(tail);
      assert more.Some? ==> [words[0]] + (words[1..] + more.value) == words + more.value;
    }
  }

  lemma SplitEmpty()
    ensures SplitArgs([]) == Some([])
  {
  }
}
