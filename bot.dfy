/** The running bot: the three module-level values that the admin handlers
    update in place, and the repost handler.

    Each command method checks the caller, the argument and the parsed id
    in the order the handler does, changes the fields only when every
    check passes, and then saves the configuration.  Its postcondition ties
    the new state and the reply to Registry.Step, whose properties are the
    lemmas of module Registry.  Repost is proved to make exactly the calls
    Relay.FanOut lists.
 */
module Bot {
  import opened Ids
  import opened Registry
  import opened Relay

  class ReplicanteBot {
    var origin: int               // GRUPO_ORIGEM_ID, 0 when not configured
    var destinations: seq<int>    // GRUPOS_DESTINO
    var admins: seq<int>          // ADMIN_IDS

    /** The configuration last written to config.json by this process. */
    ghost var saved: Option<Snapshot>

    constructor (loaded: Snapshot)
      ensures State() == loaded && saved == None
    {
      origin := loaded.origin;
      destinations := loaded.destinations;
      admins := loaded.admins;
      saved := None;
    }

    function State(): Snapshot
      reads this
    {
      Snapshot(origin, destinations, admins)
    }

    /** The guards shared by all five commands: the parsed id, or the refusal.
        This is the guard chain of Registry.Step, run on the fields; the
        command methods' postconditions tie the two together. */
    method Guard(caller: int, args: seq<string>) returns (id: Option<int>, refusal: Reply)
      ensures id.None? <==> (!IsAdmin(State(), caller) || args == [] || ParseInt(args[0]).None?)
      ensures id.None? ==> refusal == if !IsAdmin(State(), caller) then NotPermitted
                                      else if args == [] then Usage else NotAnInteger
      ensures id.Some? ==> args != [] && ParseInt(args[0]) == id && IsAdmin(State(), caller)
    {
      if !IsAdmin(State(), caller) {
        return None, NotPermitted;
      }
      if args == [] {
        return None, Usage;
      }
      id := ParseInt(args[0]);
      refusal := NotAnInteger;
    }

    /** /adicionargrupo <id> */
    method AddDestination(caller: int, args: seq<string>) returns (reply: Reply)
      modifies this
      ensures Outcome(State(), reply) == Step(Command.AddDestination, old(State()), caller, args)
      ensures saved == if reply.Committed() then Some(State()) else old(saved)
    {
      var parsed, refusal := Guard(caller, args);
      if parsed.None? {
        return refusal;
      }
      var id := parsed.value;
      if id in destinations {
        return AlreadyDestination(id);
      }
      destinations := destinations + [id];
      saved := Some(State());
      reply := DestinationAdded(id);
    }

    /** /removergrupo <id> */
    method RemoveDestination(caller: int, args: seq<string>) returns (reply: Reply)
      modifies this
      ensures Outcome(State(), reply) == Step(Command.RemoveDestination, old(State()), caller, args)
      ensures saved == if reply.Committed() then Some(State()) else old(saved)
    {
      var parsed, refusal := Guard(caller, args);
      if parsed.None? {
        return refusal;
      }
      var id := parsed.value;
      if id !in destinations {
        return NotADestination(id);
      }
      destinations := RemoveFirst(destinations, id);
      saved := Some(State());
      reply := DestinationRemoved(id);
    }

    /** /definirgrupoprincipal <id> */
    method SetOrigin(caller: int, args: seq<string>) returns (reply: Reply)
      modifies this
      ensures Outcome(State(), reply) == Step(Command.SetOrigin, old(State()), caller, args)
      ensures saved == if reply.Committed() then Some(State()) else old(saved)
    {
      var parsed, refusal := Guard(caller, args);
      if parsed.None? {
        return refusal;
      }
      origin := parsed.value;
      saved := Some(State());
      reply := OriginSet(origin);
    }

    /** /adicionaradmin <id> */
    method AddAdmin(caller: int, args: seq<string>) returns (reply: Reply)
      modifies this
      ensures Outcome(State(), reply) == Step(Command.AddAdmin, old(State()), caller, args)
      ensures saved == if reply.Committed() then Some(State()) else old(saved)
    {
      var parsed, refusal := Guard(caller, args);
      if parsed.None? {
        return refusal;
      }
      var id := parsed.value;
      if id in admins {
        return AlreadyAdmin(id);
      }
      admins := admins + [id];
      saved := Some(State());
      reply := AdminAdded(id);
    }

    /** /removeradmin <id> */
    method RemoveAdmin(caller: int, args: seq<string>) returns (reply: Reply)
      modifies this
      ensures Outcome(State(), reply) == Step(Command.RemoveAdmin, old(State()), caller, args)
      ensures saved == if reply.Committed() then Some(State()) else old(saved)
      ensures |old(admins)| > 0 ==> |admins| > 0
    {
      var parsed, refusal := Guard(caller, args);
      if parsed.None? {
        return refusal;
      }
      var id := parsed.value;
      if id !in admins {
        return NotAnAdmin(id);
      }
      if |admins| <= 1 {
        return LastAdmin;
      }
      ghost var before := State();
      RemoveAdminSpec(before, id);
      assert Step(Command.RemoveAdmin, before, caller, args) ==
             Outcome(before.(admins := RemoveFirst(before.admins, id)), AdminRemoved(id));
      admins := RemoveFirst(admins, id);
      saved := Some(State());
      reply := AdminRemoved(id);
    }

    /** repostar_mensagem: a message from `chat` is copied to every destination
        when `chat` is the origin group; `copy` decides each copy's outcome. */
    method Repost(chat: int, message: int, copy: nat -> CopyResult) returns (log: seq<Action>)
      ensures log == if chat == origin then FanOut(destinations, admins, chat, message, copy) else []
    {
      log := [];
      if chat != origin {
        return;
      }
      var i := 0;
      while i < |destinations|
        invariant 0 <= i <= |destinations|
        invariant log == FanOut(destinations[..i], admins, chat, message, copy)
      {
        var group := destinations[i];
        var before := log;
        log := log + [Copy(group, chat, message)];
        var result := copy(i);
        if result.Failed? {
          var j := 0;
          while j < |admins|
            invariant 0 <= j <= |admins|
            invariant log == before + [Copy(group, chat, message)] + Alerts(admins[..j], group, result.reason)
          {
            log := log + [Notify(admins[j], group, result.reason)];
            assert admins[..j + 1][..j] == admins[..j];
            j := j + 1;
          }
          assert admins[..|admins|] == admins;
        }
        assert destinations[..i + 1][..i] == destinations[..i];
        i := i + 1;
      }
      assert destinations[..|destinations|] == destinations;
    }
  }
}
