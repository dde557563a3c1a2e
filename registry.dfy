/** The destination/admin registry and the semantics of the five admin
    commands, as pure functions on a snapshot of the bot's three
    module-level values: the origin group (0 when not configured), the list
    of destination groups and the list of admin user ids.

    Every command runs the same guards in the same order: the caller must
    be an admin, an argument must be given, and the first argument must be
    an integer.  Only then does the command look at the registry.  The
    class in module Bot performs these commands in place and is proved to
    agree with Step.
 */
module Registry {
  import opened Ids

  datatype Snapshot = Snapshot(origin: int, destinations: seq<int>, admins: seq<int>)

  /** The five admin commands. */
  datatype Command = AddDestination | RemoveDestination | SetOrigin | AddAdmin | RemoveAdmin

  /** What the bot replies to the caller; the texts themselves are not modelled. */
  datatype Reply =
    | NotPermitted                  // the caller is not an admin
    | Usage                         // no argument was given
    | NotAnInteger                  // int() raised ValueError
    | AlreadyDestination(id: int)
    | NotADestination(id: int)
    | AlreadyAdmin(id: int)
    | NotAnAdmin(id: int)
    | LastAdmin                     // refusing to remove the only admin
    | DestinationAdded(id: int)
    | DestinationRemoved(id: int)
    | OriginSet(id: int)
    | AdminAdded(id: int)
    | AdminRemoved(id: int)
  {
    /** The replies sent after the registry was changed and saved. */
    predicate Committed() {
      DestinationAdded? || DestinationRemoved? || OriginSet? || AdminAdded? || AdminRemoved?
    }
  }

  datatype Outcome = Outcome(after: Snapshot, reply: Reply)

  /** is_admin: the user holds a position in the admin list, which is then not empty. */
  predicate IsAdmin(s: Snapshot, user: int)
    ensures IsAdmin(s, user) <==> exists i :: 0 <= i < |s.admins| && s.admins[i] == user
    ensures IsAdmin(s, user) ==> |s.admins| > 0
  {
    user in s.admins
  }

  predicate NoDuplicates(xs: seq<int>) {
    forall i, j :: 0 <= i < j < |xs| ==> xs[i] != xs[j]
  }

  /** Position of the first occurrence of x. */
  function IndexOf(xs: seq<int>, x: int): (i: nat)
    requires x in xs
    ensures i < |xs| && xs[i] == x
    ensures x !in xs[..i]
  {
    if xs[0] == x then 0
    else
      var i := 1 + IndexOf(xs[1..], x);
      assert xs[..i] == [xs[0]] + xs[1..][..i - 1];
      i
  }

  /** Python's list.remove(x) on a list that holds x; the lists are left alone otherwise. */
  function RemoveFirst(xs: seq<int>, x: int): (r: seq<int>)
    ensures x in xs ==> r == xs[..IndexOf(xs, x)] + xs[IndexOf(xs, x) + 1..]
    ensures x !in xs ==> r == xs
  {
    if xs == [] then []
    else if xs[0] == x then xs[1..]
    else
      var tail := xs[1..];
      assert xs == [xs[0]] + tail;
      if x in tail then
        var j := IndexOf(tail, x);
        assert IndexOf(xs, x) == j + 1;
        assert xs[..j + 1] == [xs[0]] + tail[..j];
        assert xs[j + 2..] == tail[j + 1..];
        [xs[0]] + RemoveFirst(tail, x)
      else
        [xs[0]] + RemoveFirst(tail, x)
  }

  /** The guards every command shares, then the command itself.  The state
      changes only when a command commits, a command commits only for an
      admin caller whose first argument parses, and no command empties the
      admin list or introduces a duplicate. */
  function Step(cmd: Command, s: Snapshot, caller: int, args: seq<string>): (o: Outcome)
    ensures !o.reply.Committed() ==> o.after == s
    ensures o.reply.Committed() ==> IsAdmin(s, caller) && args != [] && ParseInt(args[0]) == Some(o.reply.id)
    ensures |s.admins| > 0 ==> |o.after.admins| > 0
    ensures NoDuplicates(s.destinations) ==> NoDuplicates(o.after.destinations)
    ensures NoDuplicates(s.admins) ==> NoDuplicates(o.after.admins)
  {
    if !IsAdmin(s, caller) then Outcome(s, NotPermitted)
    else if args == [] then Outcome(s, Usage)
    else match ParseInt(args[0])
      case None => Outcome(s, NotAnInteger)
      case Some(id) => Apply(cmd, s, id)
  }

  /** A command whose guards have passed, on the parsed id.  Each command
      touches only its own part of the registry, and commits on that id. */
  function Apply(cmd: Command, s: Snapshot, id: int): (o: Outcome)
    ensures o.after.origin == if cmd == SetOrigin then id else s.origin
    ensures cmd != AddDestination && cmd != RemoveDestination ==> o.after.destinations == s.destinations
    ensures cmd != AddAdmin && cmd != RemoveAdmin ==> o.after.admins == s.admins
    ensures o.reply.Committed() ==> o.reply.id == id
    ensures !o.reply.Committed() ==> o.after == s
  {
    match cmd
    case AddDestination =>
      if id in s.destinations then Outcome(s, AlreadyDestination(id))
      else Outcome(s.(destinations := s.destinations + [id]), DestinationAdded(id))
    case RemoveDestination =>
      if id !in s.destinations then Outcome(s, NotADestination(id))
      else Outcome(s.(destinations := RemoveFirst(s.destinations, id)), DestinationRemoved(id))
    case SetOrigin =>
      Outcome(s.(origin := id), OriginSet(id))
    case AddAdmin =>
      if id in s.admins then Outcome(s, AlreadyAdmin(id))
      else Outcome(s.(admins := s.admins + [id]), AdminAdded(id))
    case RemoveAdmin =>
      if id !in s.admins then Outcome(s, NotAnAdmin(id))
      else if |s.admins| <= 1 then Outcome(s, LastAdmin)
      else Outcome(s.(admins := RemoveFirst(s.admins, id)), AdminRemoved(id))
  }

  /** One admin command as it arrives: who sent it and with which arguments. */
  datatype Request = Request(cmd: Command, caller: int, args: seq<string>)

  /** The registry after a sequence of commands, handled one at a time.
      Once there is an admin there is always one; with no admin, nothing
      ever changes. */
  function Run(s: Snapshot, requests: seq<Request>): (r: Snapshot)
    ensures |s.admins| > 0 ==> |r.admins| > 0
    ensures s.admins == [] ==> r == s
    decreases |requests|
  {
    if requests == [] then s
    else
      var first := requests[0];
      Run(Step(first.cmd, s, first.caller, first.args).after, requests[1..])
  }

  // ---------------------------------------------------------------------
  // Removing the first occurrence

  lemma {:induction false} RemoveFirstMultiset(xs: seq<int>, x: int)
    requires x in xs
    ensures multiset(RemoveFirst(xs, x)) == multiset(xs) - multiset{x}
    ensures |RemoveFirst(xs, x)| == |xs| - 1
  {
    var i := IndexOf(xs, x);
    assert xs == xs[..i] + [x] + xs[i + 1..];
    calc {
      multiset(xs);
      multiset(xs[..i] + [x] + xs[i + 1..]);
      multiset(xs[..i]) + multiset{x} + multiset(xs[i + 1..]);
      multiset(xs[..i] + xs[i + 1..]) + multiset{x};
    }
  }

  /** Removing x from a list without duplicates drops x entirely and keeps the others, distinct. */
  lemma {:induction false} RemoveFirstDistinct(xs: seq<int>, x: int)
    requires x in xs
    requires NoDuplicates(xs)
    ensures NoDuplicates(RemoveFirst(xs, x))
    ensures forall y :: y in RemoveFirst(xs, x) <==> y in xs && y != x
  {
    if xs[0] == x {
      assert forall y :: y in xs <==> y == x || y in xs[1..];
      forall k | 0 <= k < |xs[1..]| ensures xs[1..][k] != x {
        assert xs[1..][k] == xs[k + 1];
      }
    } else {
      var tail := xs[1..];
      assert NoDuplicates(tail) by {
        forall i, j | 0 <= i < j < |tail| ensures tail[i] != tail[j] {
          assert tail[i] == xs[i + 1] && tail[j] == xs[j + 1];
        }
      }
      RemoveFirstDistinct(tail, x);
      forall k | 0 <= k < |tail| ensures tail[k] != xs[0] {
        assert tail[k] == xs[k + 1];
      }
      assert forall y :: y in xs <==> y == xs[0] || y in tail;
      var r := RemoveFirst(xs, x);
      assert r == [xs[0]] + RemoveFirst(tail, x);
      forall i, j | 0 <= i < j < |r| ensures r[i] != r[j] {
        if i == 0 {
          assert r[j] in RemoveFirst(tail, x);
        } else {
          assert r[i] == RemoveFirst(tail, x)[i - 1] && r[j] == RemoveFirst(tail, x)[j - 1];
        }
      }
    }
  }

  /** With a duplicate, list.remove keeps the other copy: x remains an admin. */
  lemma RemoveFirstKeepsDuplicate(xs: seq<int>, x: int)
    requires multiset(xs)[x] >= 2
    ensures x in RemoveFirst(xs, x)
  {
    RemoveFirstMultiset(xs, x);
  }

  // ---------------------------------------------------------------------
  // The guards

  /** A caller who is not an admin, a missing argument or a non-integer argument changes nothing. */
  lemma RejectionsChangeNothing(cmd: Command, s: Snapshot, caller: int, args: seq<string>)
    requires !IsAdmin(s, caller) || args == [] || ParseInt(args[0]).None?
    ensures Step(cmd, s, caller, args).after == s
    ensures !Step(cmd, s, caller, args).reply.Committed()
    ensures !IsAdmin(s, caller) ==> Step(cmd, s, caller, args).reply == NotPermitted
  {
  }

  // ---------------------------------------------------------------------
  // Each command once its guards pass

  lemma AddDestinationSpec(s: Snapshot, id: int)
    ensures id in s.destinations ==> Apply(AddDestination, s, id) == Outcome(s, AlreadyDestination(id))
    ensures id !in s.destinations ==>
              Apply(AddDestination, s, id) == Outcome(s.(destinations := s.destinations + [id]), DestinationAdded(id))
    ensures NoDuplicates(s.destinations) ==> NoDuplicates(Apply(AddDestination, s, id).after.destinations)
    ensures id in Apply(AddDestination, s, id).after.destinations
  {
  }

  lemma RemoveDestinationSpec(s: Snapshot, id: int)
    ensures id !in s.destinations ==> Apply(RemoveDestination, s, id) == Outcome(s, NotADestination(id))
    ensures id in s.destinations ==>
              var i := IndexOf(s.destinations, id);
              Apply(RemoveDestination, s, id) ==
              Outcome(s.(destinations := s.destinations[..i] + s.destinations[i + 1..]), DestinationRemoved(id))
    ensures id in s.destinations ==>
              |Apply(RemoveDestination, s, id).after.destinations| == |s.destinations| - 1
    ensures NoDuplicates(s.destinations) ==>
              NoDuplicates(Apply(RemoveDestination, s, id).after.destinations) &&
              id !in Apply(RemoveDestination, s, id).after.destinations
  {
  }

  lemma SetOriginSpec(s: Snapshot, id: int)
    ensures Apply(SetOrigin, s, id) == Outcome(Snapshot(id, s.destinations, s.admins), OriginSet(id))
  {
  }

  lemma AddAdminSpec(s: Snapshot, id: int)
    ensures id in s.admins ==> Apply(AddAdmin, s, id) == Outcome(s, AlreadyAdmin(id))
    ensures id !in s.admins ==> Apply(AddAdmin, s, id) == Outcome(s.(admins := s.admins + [id]), AdminAdded(id))
    ensures NoDuplicates(s.admins) ==> NoDuplicates(Apply(AddAdmin, s, id).after.admins)
  {
  }

  lemma RemoveAdminSpec(s: Snapshot, id: int)
    ensures id !in s.admins ==> Apply(RemoveAdmin, s, id) == Outcome(s, NotAnAdmin(id))
    ensures id in s.admins && |s.admins| <= 1 ==> Apply(RemoveAdmin, s, id) == Outcome(s, LastAdmin)
    ensures id in s.admins && |s.admins| > 1 ==>
              var i := IndexOf(s.admins, id);
              Apply(RemoveAdmin, s, id) ==
              Outcome(s.(admins := s.admins[..i] + s.admins[i + 1..]), AdminRemoved(id))
    ensures |s.admins| > 0 ==> |Apply(RemoveAdmin, s, id).after.admins| > 0
  {
  }
}
