/** What repostar_mensagem does with a message from the origin group: one
    copy_message call per destination group, in list order; when a copy
    fails, one send_message call to every admin, in list order, naming the
    group and the error.  A failed copy is caught and the loop goes on; a
    failed notification is swallowed.

    The outcome of the i-th copy attempt (counting from 0) is given by an
    oracle `copy`, since it is decided by Telegram.  The outcomes of the
    notifications decide nothing, so they have no oracle.  FanOut is the
    sequence of calls made; method ReplicanteBot.Repost in module Bot
    builds it with the source's two nested loops.
 */
module Relay {

  datatype CopyResult = Copied | Failed(reason: string)

  /** A call the bot makes to Telegram. */
  datatype Action =
    | Copy(group: int, fromChat: int, message: int)        // copy_message
    | Notify(admin: int, group: int, reason: string)       // send_message about a failed copy

  /** The notifications sent for one failed copy: one per admin, in order. */
  function Alerts(admins: seq<int>, group: int, reason: string): (r: seq<Action>)
    ensures |r| == |admins|
    ensures forall k :: 0 <= k < |admins| ==> r[k] == Notify(admins[k], group, reason)
    decreases |admins|
  {
    if admins == [] then []
    else Alerts(admins[..|admins| - 1], group, reason) + [Notify(admins[|admins| - 1], group, reason)]
  }

  /** The calls made for one destination group: its copy first, then, if the
      copy failed, one alert per admin in admin-list order. */
  function Attempt(group: int, admins: seq<int>, fromChat: int, message: int, result: CopyResult): (r: seq<Action>)
    ensures |r| == 1 + if result.Failed? then |admins| else 0
    ensures r[0] == Copy(group, fromChat, message)
    ensures forall k :: 1 <= k < |r| ==> r[k] == Notify(admins[k - 1], group, result.reason)
  {
    [Copy(group, fromChat, message)] + (if result.Failed? then Alerts(admins, group, result.reason) else [])
  }

  /** The calls made for the groups, in order; groups[i] is the i-th copy attempt.
      There is one call per group plus one per admin for every failed copy. */
  function FanOut(groups: seq<int>, admins: seq<int>, fromChat: int, message: int, copy: nat -> CopyResult): (r: seq<Action>)
    ensures |r| == |groups| + |admins| * Failures(|groups|, copy)
    decreases |groups|
  {
    if groups == [] then []
    else
      var n := |groups| - 1;
      var a, f, d := |admins|, Failures(n, copy), if copy(n).Failed? then 1 else 0;
      assert a * (f + d) == a * f + a * d;
      FanOut(groups[..n], admins, fromChat, message, copy) + Attempt(groups[n], admins, fromChat, message, copy(n))
  }

  /** The groups that copy_message was called for, in call order. */
  function CopiedGroups(log: seq<Action>): seq<int>
    decreases |log|
  {
    if log == [] then []
    else
      var n := |log| - 1;
      CopiedGroups(log[..n]) + (if log[n].Copy? then [log[n].group] else [])
  }

  /** The number of notifications in a log. */
  function NotificationCount(log: seq<Action>): nat
    decreases |log|
  {
    if log == [] then 0
    else
      var n := |log| - 1;
      NotificationCount(log[..n]) + (if log[n].Notify? then 1 else 0)
  }

  /** The number of the first n copy attempts that fail. */
  function Failures(n: nat, copy: nat -> CopyResult): nat {
    if n == 0 then 0 else Failures(n - 1, copy) + (if copy(n - 1).Failed? then 1 else 0)
  }

  // ---------------------------------------------------------------------
  // Counting over concatenated logs

  lemma {:induction false} CopiedGroupsAppend(a: seq<Action>, b: seq<Action>)
    ensures CopiedGroups(a + b) == CopiedGroups(a) + CopiedGroups(b)
    ensures NotificationCount(a + b) == NotificationCount(a) + NotificationCount(b)
    decreases |b|
  {
    if b == [] {
      assert a + b == a;
    } else {
      var n := |b| - 1;
      assert (a + b)[..|a + b| - 1] == a + b[..n];
      assert (a + b)[|a + b| - 1] == b[n];
      CopiedGroupsAppend(a, b[..n]);
    }
  }

  /** The alerts for a failed copy copy nothing and count one per admin. */
  lemma {:induction false} AlertsSpec(admins: seq<int>, group: int, reason: string)
    ensures CopiedGroups(Alerts(admins, group, reason)) == []
    ensures NotificationCount(Alerts(admins, group, reason)) == |admins|
    decreases |admins|
  {
    if admins != [] {
      var n := |admins| - 1;
      AlertsSpec(admins[..n], group, reason);
      CopiedGroupsAppend(Alerts(admins[..n], group, reason), [Notify(admins[n], group, reason)]);
      assert CopiedGroups([Notify(admins[n], group, reason)]) == [];
      assert NotificationCount([Notify(admins[n], group, reason)]) == 1;
    }
  }

  lemma AttemptSpec(group: int, admins: seq<int>, fromChat: int, message: int, result: CopyResult)
    ensures CopiedGroups(Attempt(group, admins, fromChat, message, result)) == [group]
    ensures NotificationCount(Attempt(group, admins, fromChat, message, result)) ==
              if result.Failed? then |admins| else 0
  {
    var first := [Copy(group, fromChat, message)];
    assert CopiedGroups(first) == [group] by {
      assert first[..0] == [];
    }
    assert NotificationCount(first) == 0 by {
      assert first[..0] == [];
    }
    if result.Failed? {
      AlertsSpec(admins, group, result.reason);
      CopiedGroupsAppend(first, Alerts(admins, group, result.reason));
    } else {
      assert first + [] == first;
    }
  }

  // ---------------------------------------------------------------------
  // What the fan-out promises

  /** Every destination gets exactly one copy attempt, in list order, whatever
      the earlier attempts returned. */
  lemma {:induction false} FanOutCopiesEveryGroup(groups: seq<int>, admins: seq<int>, fromChat: int, message: int, copy: nat -> CopyResult)
    ensures CopiedGroups(FanOut(groups, admins, fromChat, message, copy)) == groups
    decreases |groups|
  {
    if groups != [] {
      var n := |groups| - 1;
      FanOutCopiesEveryGroup(groups[..n], admins, fromChat, message, copy);
      AttemptSpec(groups[n], admins, fromChat, message, copy(n));
      CopiedGroupsAppend(FanOut(groups[..n], admins, fromChat, message, copy),
                         Attempt(groups[n], admins, fromChat, message, copy(n)));
      assert groups[..n] + [groups[n]] == groups;
    }
  }

  /** Each failed copy produces one notification per admin, and nothing else does. */
  lemma {:induction false} FanOutNotifications(groups: seq<int>, admins: seq<int>, fromChat: int, message: int, copy: nat -> CopyResult)
    ensures NotificationCount(FanOut(groups, admins, fromChat, message, copy)) == |admins| * Failures(|groups|, copy)
    decreases |groups|
  {
    if groups != [] {
      var n := |groups| - 1;
      var prev := FanOut(groups[..n], admins, fromChat, message, copy);
      var last := Attempt(groups[n], admins, fromChat, message, copy(n));
      var a, f := |admins|, Failures(n, copy);
      var d := if copy(n).Failed? then 1 else 0;
      assert NotificationCount(prev + last) == a * f + a * d by {
        FanOutNotifications(groups[..n], admins, fromChat, message, copy);
        AttemptSpec(groups[n], admins, fromChat, message, copy(n));
        CopiedGroupsAppend(prev, last);
      }
      assert FanOut(groups, admins, fromChat, message, copy) == prev + last;
      assert Failures(|groups|, copy) == f + d;
      assert a * (f + d) == a * f + a * d;
    }
  }

  /** The calls for the first k groups are made first, and the k-th group's copy
      and alerts come right after them: a failure never cuts the fan-out short. */
  lemma {:induction false} FanOutPrefix(groups: seq<int>, admins: seq<int>, fromChat: int, message: int, copy: nat -> CopyResult, k: nat)
    requires k < |groups|
    ensures FanOut(groups[..k], admins, fromChat, message, copy) + Attempt(groups[k], admins, fromChat, message, copy(k))
            <= FanOut(groups, admins, fromChat, message, copy)
    decreases |groups|
  {
    var n := |groups| - 1;
    if k < n {
      FanOutPrefix(groups[..n], admins, fromChat, message, copy, k);
      assert groups[..n][..k] == groups[..k];
    } else {
      assert groups[..k] == groups[..n];
    }
  }

  /** When every copy succeeds, the bot makes exactly one copy call per group and nothing else. */
  lemma {:induction false} FanOutAllCopied(groups: seq<int>, admins: seq<int>, fromChat: int, message: int, copy: nat -> CopyResult)
    requires forall k :: 0 <= k < |groups| ==> copy(k) == Copied
    ensures FanOut(groups, admins, fromChat, message, copy) ==
            seq(|groups|, k requires 0 <= k < |groups| => Copy(groups[k], fromChat, message))
    decreases |groups|
  {
    if groups != [] {
      var n := |groups| - 1;
      FanOutAllCopied(groups[..n], admins, fromChat, message, copy);
    }
  }
}
