/**
  The transfer core of MIGRATE: keys are sent with RESTORE, and those whose
  reply is positive are deleted here, with one retry at most after a socket
  failure. The socket's answers are arbitrary.
  */
module Migrate {
  import opened Wrappers

  /** A read of one reply line: a positive or an error line, or a failure of the socket. */
  datatype LineRead = Line(error: bool) | NoLine(timeout: bool)

  /** What happens during one attempt; `expired` holds of the keys found expired when the payload is made. */
  datatype Attempt<!K> = Attempt(
    connects: bool, expired: K -> bool, writeFails: Option<bool>, select: bool,
    auth: LineRead, selected: LineRead, restores: seq<LineRead>)

  datatype Answer = Done | NoKey | ConnectError | TargetError | IoError

  // ---- what the target acknowledged ----

  function Live<K>(keys: seq<K>, expired: K -> bool): seq<K> {
    if keys == [] then []
    else
      var short, last := Live(keys[..|keys| - 1], expired), keys[|keys| - 1];
      if expired(last) then short else short + [last]
  }

  /** The keys an attempt sends: nothing expires for an attempt that does not connect. */
  function Survivors<K>(keys: seq<K>, a: Attempt<K>): seq<K> { if a.connects then Live(keys, a.expired) else keys }

  function RestoreRead<K>(a: Attempt<K>, j: nat): LineRead {
    if j < |a.restores| then a.restores[j] else NoLine(false)
  }

  /** The commands were written, and the replies before those to RESTORE were read. */
  predicate Opened<K>(a: Attempt<K>, auth: bool) {
    a.connects && a.writeFails.None? && (auth ==> a.auth.Line?) && (a.select ==> a.selected.Line?)
  }

  /** AUTH or SELECT was refused: no RESTORE reply counts then. */
  predicate RefusedBefore<K>(a: Attempt<K>, auth: bool) {
    (auth && a.auth.Line? && a.auth.error) || (a.select && a.selected.Line? && a.selected.error)
  }

  /** How many of the first `n` replies to RESTORE were read before the socket failed. */
  function Received<K>(a: Attempt<K>, n: nat): (r: nat)
    ensures r <= n
  {
    if n == 0 then 0
    else
      var r := Received(a, n - 1);
      if r == n - 1 && RestoreRead(a, n - 1).Line? then n else r
  }

  /** The keys among the first `n` whose RESTORE was acknowledged. */
  function Acked<K>(a: Attempt<K>, auth: bool, keys: seq<K>, n: nat): seq<K>
    requires n <= |keys|
  {
    if n == 0 || !Opened(a, auth) || RefusedBefore(a, auth) then []
    else
      var short := Acked(a, auth, keys, n - 1);
      if Received(a, n) == n && !RestoreRead(a, n - 1).error then short + [keys[n - 1]] else short
  }

  function AckedAll<K>(a: Attempt<K>, auth: bool, keys: seq<K>): seq<K> {
    Acked(a, auth, keys, |keys|)
  }

  lemma {:induction false} ReceivedStops<K>(a: Attempt<K>, i: nat, n: nat)
    requires i <= n && Received(a, i) < i
    ensures Received(a, n) == Received(a, i)
    decreases n
  {
    if i < n {
      ReceivedStops(a, i, n - 1);
    }
  }

  /** After the socket failed nothing more is acknowledged. */
  lemma {:induction false} AckedStops<K>(a: Attempt<K>, auth: bool, keys: seq<K>, i: nat, n: nat)
    requires i <= n <= |keys| && Received(a, i) == i && (i < n ==> !RestoreRead(a, i).Line?)
    ensures Acked(a, auth, keys, n) == Acked(a, auth, keys, i)
    decreases n
  {
    if i < n {
      AckedStops(a, auth, keys, i, n - 1);
      assert Received(a, i + 1) == i;
      ReceivedStops(a, i + 1, n);
    }
  }

  lemma {:induction false} ReceivedMeans<K>(a: Attempt<K>, n: nat)
    ensures Received(a, n) == n <==> n <= |a.restores| && forall i :: 0 <= i < n ==> a.restores[i].Line?
    decreases n
  {
    if n > 0 {
      ReceivedMeans(a, n - 1);
    }
  }

  lemma {:induction false} AckedAt<K>(a: Attempt<K>, auth: bool, keys: seq<K>, n: nat, k: K)
    requires n <= |keys|
    ensures k in Acked(a, auth, keys, n) <==>
      Opened(a, auth) && !RefusedBefore(a, auth) &&
      exists j :: 0 <= j < n && keys[j] == k && Received(a, j + 1) == j + 1 && !RestoreRead(a, j).error
    decreases n
  {
    if n > 0 {
      AckedAt(a, auth, keys, n - 1, k);
      if Received(a, n) == n && !RestoreRead(a, n - 1).error {
        assert Received(a, n - 1 + 1) == n - 1 + 1;
      }
    }
  }

  /**
    A key is acknowledged exactly when the commands were written, AUTH and SELECT were answered
    positively where they were sent, and one of its RESTOREs was, all replies before it read.
    */
  lemma AckedMeans<K>(a: Attempt<K>, auth: bool, keys: seq<K>, k: K)
    ensures k in AckedAll(a, auth, keys) <==>
      && a.connects && a.writeFails == None
      && (auth ==> a.auth == Line(false)) && (a.select ==> a.selected == Line(false))
      && exists j :: 0 <= j < |keys| && j < |a.restores| && keys[j] == k && a.restores[j] == Line(false) &&
                     forall i :: 0 <= i < j ==> a.restores[i].Line?
  {
    AckedAt(a, auth, keys, |keys|, k);
    hide Received, Acked;
    forall j | 0 <= j < |keys| && keys[j] == k
      ensures Received(a, j + 1) == j + 1 && !RestoreRead(a, j).error <==>
        j < |a.restores| && a.restores[j] == Line(false) && forall i :: 0 <= i < j ==> a.restores[i].Line?
    {
      ReceivedMeans(a, j + 1);
    }
  }

  /** Where a reply that was read counts as an error of the target. */
  ghost predicate ErrorAt<K>(a: Attempt<K>, auth: bool, j: nat) {
    && j < |a.restores| && (forall i :: 0 <= i <= j ==> a.restores[i].Line?)
    && ((auth && a.auth == Line(true)) || (a.select && a.selected == Line(true)) || a.restores[j] == Line(true))
  }

  /** Every reply that was read acknowledges its key, unless one is an error of the target. */
  lemma {:induction false} ErrorMeans<K>(a: Attempt<K>, auth: bool, keys: seq<K>, n: nat)
    requires n <= |keys| && Opened(a, auth)
    ensures Acked(a, auth, keys, n) != keys[..Received(a, n)] <==> exists j :: 0 <= j < n && ErrorAt(a, auth, j)
    ensures |Acked(a, auth, keys, n)| <= Received(a, n)
    decreases n
  {
    if n > 0 {
      ErrorMeans(a, auth, keys, n - 1);
      ReceivedMeans(a, n);
      var short := keys[..Received(a, n - 1)];
      if Received(a, n) == n {
        assert keys[..n] == keys[..n - 1] + [keys[n - 1]];
        assert keys[..n - 1] == short;
        if RefusedBefore(a, auth) || RestoreRead(a, n - 1).error {
          assert ErrorAt(a, auth, n - 1);
        }
      }
    }
  }

  /** Done: everything was answered positively; with nothing left to send, AUTH and SELECT only answered. */
  lemma DoneMeans<K>(a: Attempt<K>, auth: bool, keys: seq<K>)
    ensures AllDone(a, auth, keys) <==>
      && a.connects && a.writeFails == None && (auth ==> a.auth.Line?) && (a.select ==> a.selected.Line?)
      && (keys != [] ==> (auth ==> a.auth == Line(false)) && (a.select ==> a.selected == Line(false)))
      && |keys| <= |a.restores| && forall j :: 0 <= j < |keys| ==> a.restores[j] == Line(false)
  {
    ReceivedMeans(a, |keys|);
    if Opened(a, auth) && Received(a, |keys|) == |keys| {
      ErrorMeans(a, auth, keys, |keys|);
      assert keys[..|keys|] == keys;
      hide Received, Acked;
      if AllDone(a, auth, keys) {
        forall j | 0 <= j < |keys| ensures a.restores[j] == Line(false) && !RefusedBefore(a, auth) {
          assert !ErrorAt(a, auth, j);
        }
      }
    }
  }

  /** The socket failed, not by a timeout, before any reply to RESTORE was read. */
  predicate FailsEarly<K>(a: Attempt<K>, auth: bool, keys: seq<K>) {
    a.connects &&
    if a.writeFails.Some? then !a.writeFails.value
    else if auth && a.auth.NoLine? then !a.auth.timeout
    else if a.select && a.selected.NoLine? then !a.selected.timeout
    else keys != [] && RestoreRead(a, 0) == NoLine(false)
  }

  /** Every reply was read, and every key acknowledged. */
  predicate AllDone<K(==)>(a: Attempt<K>, auth: bool, keys: seq<K>) {
    Opened(a, auth) && Received(a, |keys|) == |keys| && AckedAll(a, auth, keys) == keys
  }

  // ---- the command ----

  class Keyspace<K(==,!new)> {
    var keys: set<K>

    constructor (keys: set<K>)
      ensures this.keys == keys
    {
      this.keys := keys;
    }

    /** Reads the replies to RESTORE and deletes the acknowledged keys. */
    method ReadReplies(a: Attempt<K>, auth: bool, kv: seq<K>, copy: bool)
      returns (j: nat, del: seq<K>, errorFromTarget: bool, socketError: bool, timedOut: bool)
      requires Opened(a, auth)
      modifies this
      ensures j == Received(a, |kv|) && socketError == (j < |kv|)
      ensures socketError ==> RestoreRead(a, j).NoLine?
      ensures del == (if copy then [] else AckedAll(a, auth, kv))
      ensures keys == old(keys) - (set k | k in del)
      ensures !errorFromTarget ==> AckedAll(a, auth, kv) == kv[..j]
      ensures errorFromTarget ==> j > 0 && |AckedAll(a, auth, kv)| < j
      ensures timedOut == (socketError && RestoreRead(a, j) == NoLine(true))
    {
      j, del, errorFromTarget, socketError, timedOut := 0, [], false, false, false;
      while j < |kv|
        invariant 0 <= j <= |kv| && Received(a, j) == j
        invariant del == (if copy then [] else Acked(a, auth, kv, j))
        invariant keys == old(keys) - (set k | k in del)
        invariant !errorFromTarget ==> Acked(a, auth, kv, j) == kv[..j]
        invariant errorFromTarget ==> j > 0 && |Acked(a, auth, kv, j)| < j
      {
        var line := RestoreRead(a, j);
        if line.NoLine? {
          AckedStops(a, auth, kv, j, |kv|);
          assert Received(a, j + 1) == j;
          ReceivedStops(a, j + 1, |kv|);
          socketError, timedOut := true, line.timeout;
          return;
        }
        assert kv[..j + 1] == kv[..j] + [kv[j]];
        if RefusedBefore(a, auth) || line.error {
          errorFromTarget := true;
        } else if !copy {
          keys := keys - {kv[j]};
          del := del + [kv[j]];
        }
        j := j + 1;
      }
    }

    /** Moves the keys that have not expired to the front. */
    method Compact(kv: seq<K>, expired: K -> bool) returns (r: seq<K>)
      ensures r == Live(kv, expired)
    {
      var nonExpired := 0;
      r := kv;
      assert kv[..0] == [];
      for j := 0 to |kv|
        invariant 0 <= nonExpired <= j && |r| == |kv| && forall i :: j <= i < |kv| ==> r[i] == kv[i]
        invariant r[..nonExpired] == Live(kv[..j], expired)
      {
        assert kv[..j + 1][..j] == kv[..j];
        if !expired(kv[j]) {
          r := r[nonExpired := r[j]];
          nonExpired := nonExpired + 1;
        }
      }
      assert kv[..|kv|] == kv;
      r := r[..nonExpired];
    }

    /**
      One pass from try_again on. `failed` tells that control reached
      socket_err, with or without a timeout, `final` that no retry is allowed then.
      */
    method Try(a: Attempt<K>, auth: bool, kv0: seq<K>, copy: bool, mayRetry: bool)
      returns (kv: seq<K>, answer: Answer, del: seq<K>, failed: bool, timedOut: bool, final: bool)
      modifies this
      ensures kv == Survivors(kv0, a)
      ensures del == (if copy then [] else AckedAll(a, auth, kv))
      ensures keys == old(keys) - (set k | k in del)
      ensures mayRetry ==> (failed && !timedOut && !final <==> FailsEarly(a, auth, kv))
      ensures FailsEarly(a, auth, kv) ==> AckedAll(a, auth, kv) == []
      ensures !failed && answer.Done? <==> AllDone(a, auth, kv)
      ensures !failed && answer.ConnectError? <==> !a.connects
      ensures !failed && answer.TargetError? <==> Opened(a, auth) && AckedAll(a, auth, kv) != kv[..Received(a, |kv|)]
      ensures !failed ==> answer.Done? || answer.TargetError? || answer.ConnectError?
    {
      kv, answer, del, failed, timedOut, final := kv0, IoError, [], false, false, false;
      if !a.connects {
        NotOpened(a, auth, kv, |kv|);
        answer := ConnectError;
        return;
      }
      kv := Compact(kv0, a.expired);
      if !Opened(a, auth) {
        NotOpened(a, auth, kv, |kv|);
        failed := true;
        if a.writeFails.Some? {
          timedOut := a.writeFails.value;
        } else if auth && a.auth.NoLine? {
          timedOut := a.auth.timeout;
        } else {
          timedOut := a.selected.timeout;
        }
        return;
      }
      if kv != [] && RestoreRead(a, 0).NoLine? {
        AckedStops(a, auth, kv, 0, |kv|);
      }
      assert Received(a, 1) == (if RestoreRead(a, 0).Line? then 1 else 0);
      if kv != [] && RestoreRead(a, 0).NoLine? {
        ReceivedStops(a, 1, |kv|);
      }
      var j, errorFromTarget, socketError;
      j, del, errorFromTarget, socketError, timedOut := ReadReplies(a, auth, kv, copy);
      if !errorFromTarget && socketError && j == 0 && mayRetry && !timedOut {
        failed := true;
        return;
      }
      if !errorFromTarget && socketError {
        failed, final := true, true;
        return;
      }
      assert j == |kv| ==> kv[..j] == kv;
      answer := if errorFromTarget then TargetError else Done;
    }

    /**
      MIGRATE without its argument parsing. Keys leave this server only when the
      target has acknowledged them; exactly those are propagated as deleted; and
      there is a second attempt at most, and only if the first had no effect here.
      */
    method Run(wanted: seq<K>, auth: bool, copy: bool, attempts: (Attempt<K>, Attempt<K>))
      returns (answer: Answer, propagated: Option<seq<K>>, tries: nat, sent: seq<K>)
      modifies this
      ensures answer.NoKey? <==> forall k :: k in wanted ==> k !in old(keys)
      ensures answer.NoKey? ==> tries == 0 && keys == old(keys) && propagated == None && sent == []
      ensures !answer.NoKey? ==> 1 <= tries <= 2
      // what is sent
      ensures forall k :: k in sent <==>
        && !answer.NoKey? && k in wanted && k in old(keys)
        && (attempts.0.connects ==> !attempts.0.expired(k))
        && (tries == 2 && attempts.1.connects ==> !attempts.1.expired(k))
      // what leaves: the keys whose RESTORE the last attempt acknowledged
      ensures copy ==> keys == old(keys) && propagated == None
      ensures !answer.NoKey? && !copy ==>
        var last := if tries == 1 then attempts.0 else attempts.1;
        && keys <= old(keys)
        && (propagated.Some? <==> keys != old(keys))
        && (forall k :: k in old(keys) && k !in keys <==>
             && last.connects && last.writeFails == None
             && (auth ==> last.auth == Line(false)) && (last.select ==> last.selected == Line(false))
             && exists j :: 0 <= j < |sent| && j < |last.restores| && sent[j] == k && last.restores[j] == Line(false) &&
                            forall i :: 0 <= i < j ==> last.restores[i].Line?)
        && (propagated.Some? ==> forall k :: k in propagated.value <==> k in old(keys) && k !in keys)
      // the answer
      ensures !answer.NoKey? ==>
        var last := if tries == 1 then attempts.0 else attempts.1;
        var written := last.connects && last.writeFails == None;
        var answered := (auth ==> last.auth.Line?) && (last.select ==> last.selected.Line?);
        && (answer.ConnectError? <==> !last.connects)
        && (answer.Done? <==>
             && written && answered
             && (sent != [] ==> (auth ==> last.auth == Line(false)) && (last.select ==> last.selected == Line(false)))
             && |sent| <= |last.restores| && forall j :: 0 <= j < |sent| ==> last.restores[j] == Line(false))
        && (answer.TargetError? <==> written && answered && exists j :: 0 <= j < |sent| && ErrorAt(last, auth, j))
      // the retry: the first attempt failed, not by a timeout, before any reply to RESTORE
      ensures tries == 2 <==>
        var first := attempts.0;
        !answer.NoKey? && first.connects &&
        if first.writeFails.Some? then first.writeFails == Some(false)
        else if auth && first.auth.NoLine? then first.auth == NoLine(false)
        else if first.select && first.selected.NoLine? then first.selected == NoLine(false)
        else
          && (exists k :: k in wanted && k in old(keys) && !first.expired(k))
          && (first.restores == [] || first.restores[0] == NoLine(false))
    {
      hide Acked, Present, Live, Received, AllDone, FailsEarly, ErrorAt, Survivors;
      answer, propagated, tries, sent := Transfer(wanted, auth, copy, attempts);
      ghost var here := Present(wanted, old(keys));
      PresentMeans(wanted, old(keys));
      if answer.NoKey? {
        return;
      }
      SurvivorsMean(here, attempts.0);
      SurvivorsMean(Survivors(here, attempts.0), attempts.1);
      EarlyMeans(attempts.0, auth, here);
      ghost var last := if tries == 1 then attempts.0 else attempts.1;
      AnswerMeans(last, auth, sent);
      RemovedMeans(last, auth, sent, old(keys), keys, copy, if copy then [] else AckedAll(last, auth, sent));
    }

    /** The attempts, their effects by what the target acknowledged. */
    method Transfer(wanted: seq<K>, auth: bool, copy: bool, attempts: (Attempt<K>, Attempt<K>))
      returns (answer: Answer, propagated: Option<seq<K>>, tries: nat, sent: seq<K>)
      modifies this
      ensures answer.NoKey? <==> Present(wanted, old(keys)) == []
      ensures answer.NoKey? ==> tries == 0 && keys == old(keys) && propagated == None && sent == []
      ensures !answer.NoKey? ==>
        var last := if tries == 1 then attempts.0 else attempts.1;
        var acked := AckedAll(last, auth, sent);
        var gone := if copy then [] else acked;
        && 1 <= tries <= 2
        && keys == old(keys) - (set k | k in gone)
        && propagated == (if copy || acked == [] then None else Some(acked))
        && (answer.Done? <==> AllDone(last, auth, sent))
        && (answer.ConnectError? <==> !last.connects)
        && (answer.TargetError? <==> Opened(last, auth) && acked != sent[..Received(last, |sent|)])
      ensures var here := Present(wanted, old(keys));
        var first := Survivors(here, attempts.0);
        && (tries == 2 <==> !answer.NoKey? && FailsEarly(attempts.0, auth, first))
        && (tries == 2 ==> AckedAll(attempts.0, auth, first) == [])
        && (!answer.NoKey? ==> sent == if tries == 2 then Survivors(first, attempts.1) else first)
    {
      hide Acked, Present, Live, Received, AllDone, FailsEarly, Survivors;
      propagated, tries := None, 0;
      var kv := FindKeys(wanted);
      if kv == [] {
        return NoKey, None, 0, [];
      }
      var del, failed, timedOut, final;
      sent, answer, del, failed, timedOut, final := Try(attempts.0, auth, kv, copy, true);
      tries := 1;
      if failed && !timedOut && !final {
        kv := sent;
        assert old(keys) - {} == old(keys);
        sent, answer, del, failed, timedOut, final := Try(attempts.1, auth, kv, copy, false);
        tries := 2;
      }
      if failed {
        answer := IoError;
      }
      if del != [] {
        propagated := Some(del);
      }
    }

    /** The keys that are here, in the order given. */
    method FindKeys(wanted: seq<K>) returns (kv: seq<K>)
      ensures kv == Present(wanted, keys)
    {
      kv := [];
      assert wanted[..0] == [];
      for j := 0 to |wanted|
        invariant kv == Present(wanted[..j], keys)
      {
        assert wanted[..j + 1][..j] == wanted[..j];
        if wanted[j] in keys {
          kv := kv + [wanted[j]];
        }
      }
      assert wanted[..|wanted|] == wanted;
    }
  }

  function Present<K(==)>(wanted: seq<K>, keys: set<K>): seq<K> {
    if wanted == [] then []
    else
      var short, last := Present(wanted[..|wanted| - 1], keys), wanted[|wanted| - 1];
      if last in keys then short + [last] else short
  }

  lemma {:induction false} PresentMeans<K>(wanted: seq<K>, keys: set<K>)
    ensures forall k :: k in Present(wanted, keys) <==> k in wanted && k in keys
    ensures Present(wanted, keys) == [] <==> forall k :: k in wanted ==> k !in keys
    decreases |wanted|
  {
    if wanted != [] {
      PresentMeans(wanted[..|wanted| - 1], keys);
      assert wanted == wanted[..|wanted| - 1] + [wanted[|wanted| - 1]];
    }
    var r := Present(wanted, keys);
    assert r != [] ==> r[0] in r;
  }

  lemma SurvivorsMean<K(!new)>(keys: seq<K>, a: Attempt<K>)
    ensures forall k :: k in Survivors(keys, a) <==> k in keys && (a.connects ==> !a.expired(k))
    ensures Survivors(keys, a) == [] <==> forall k :: k in keys ==> a.connects && a.expired(k)
  {
    LiveMeans(keys, a.expired);
    hide Live;
    var r := Survivors(keys, a);
    assert r != [] ==> r[0] in r;
  }

  lemma EarlyMeans<K(!new)>(a: Attempt<K>, auth: bool, keys: seq<K>)
    ensures FailsEarly(a, auth, Survivors(keys, a)) <==>
      a.connects &&
      if a.writeFails.Some? then a.writeFails == Some(false)
      else if auth && a.auth.NoLine? then a.auth == NoLine(false)
      else if a.select && a.selected.NoLine? then a.selected == NoLine(false)
      else (exists k :: k in keys && !a.expired(k)) && (a.restores == [] || a.restores[0] == NoLine(false))
  {
    SurvivorsMean(keys, a);
    hide Survivors;
  }

  lemma AnswerMeans<K>(a: Attempt<K>, auth: bool, keys: seq<K>)
    ensures AllDone(a, auth, keys) <==>
      && a.connects && a.writeFails == None && (auth ==> a.auth.Line?) && (a.select ==> a.selected.Line?)
      && (keys != [] ==> (auth ==> a.auth == Line(false)) && (a.select ==> a.selected == Line(false)))
      && |keys| <= |a.restores| && forall j :: 0 <= j < |keys| ==> a.restores[j] == Line(false)
    ensures Opened(a, auth) && AckedAll(a, auth, keys) != keys[..Received(a, |keys|)] <==>
      && a.connects && a.writeFails == None && (auth ==> a.auth.Line?) && (a.select ==> a.selected.Line?)
      && exists j :: 0 <= j < |keys| && ErrorAt(a, auth, j)
  {
    hide AllDone, Acked, Received, ErrorAt;
    DoneMeans(a, auth, keys);
    if Opened(a, auth) {
      ErrorMeans(a, auth, keys, |keys|);
    }
  }

  lemma RemovedMeans<K(!new)>(a: Attempt<K>, auth: bool, sent: seq<K>, before: set<K>, now: set<K>, copy: bool, del: seq<K>)
    requires del == (if copy then [] else AckedAll(a, auth, sent)) && now == before - (set k | k in del)
    requires forall k :: k in sent ==> k in before
    ensures copy ==> now == before
    ensures now <= before && (del != [] <==> now != before) && forall k :: k in del <==> k in before && k !in now
    ensures !copy ==> forall k :: k in before && k !in now <==>
      && a.connects && a.writeFails == None
      && (auth ==> a.auth == Line(false)) && (a.select ==> a.selected == Line(false))
      && exists j :: 0 <= j < |sent| && j < |a.restores| && sent[j] == k && a.restores[j] == Line(false) &&
                     forall i :: 0 <= i < j ==> a.restores[i].Line?
  {
    hide Acked;
    if !copy {
      forall k ensures k in del <==>
        && a.connects && a.writeFails == None
        && (auth ==> a.auth == Line(false)) && (a.select ==> a.selected == Line(false))
        && exists j :: 0 <= j < |sent| && j < |a.restores| && sent[j] == k && a.restores[j] == Line(false) &&
                       forall i :: 0 <= i < j ==> a.restores[i].Line?
      {
        AckedMeans(a, auth, sent, k);
      }
    }
    if del != [] {
      assert del[0] in del && del[0] in before;
    }
  }

  /** Only live keys among those given are sent. */
  lemma {:induction false} LiveMeans<K(!new)>(kv: seq<K>, expired: K -> bool)
    ensures forall k :: k in Live(kv, expired) <==> k in kv && !expired(k)
    decreases |kv|
  {
    if kv != [] {
      LiveMeans(kv[..|kv| - 1], expired);
      assert kv == kv[..|kv| - 1] + [kv[|kv| - 1]];
    }
  }

  lemma {:induction false} NotOpened<K>(a: Attempt<K>, auth: bool, keys: seq<K>, n: nat)
    requires n <= |keys| && !Opened(a, auth)
    ensures Acked(a, auth, keys, n) == []
  {
  }
}
