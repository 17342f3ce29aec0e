/** The receiver as the program keeps it: the Server's slots and the TriggerManager's
    `pending` map, updated in place. Each method is one atomic section of
    internal/webhook/webhook.go and is proved to be the like-named event of Webhook. */
module Receiver {
  import opened Text
  import opened Webhook
  import ProjectPath

  datatype Body = Unreadable | NoProject | Project(path: string)

  datatype Request = Request(post: bool, token: string, body: Body)

  /** A request that deserves a sync: right method, right token, valid project path. */
  predicate Admissible(secret: string, req: Request) {
    req.post && req.token == secret && req.body.Project? && ProjectPath.Validate(req.body.path).Accepted?
  }

  class Receiver {
    const secret: string
    var slots: nat
    var pending: map<string, CallId>
    var calls: seq<Call>

    // History: the event counter and the tallies of Webhook.State.
    var clock: nat
    ghost var latest: map<string, CallId>
    ghost var foreignErasures: multiset<string>
    ghost var orphanExits: multiset<string>

    ghost function View(): State
      reads this
    {
      State(slots, pending, calls, clock, latest, foreignErasures, orphanExits)
    }

    ghost predicate Valid()
      reads this
    {
      secret != "" && Inv(View())
    }

    constructor (secret: string)
      requires secret != ""
      ensures Valid() && View() == INITIAL && this.secret == secret
    {
      this.secret := secret;
      slots, pending, calls := 0, map[], [];
      clock, latest, foreignErasures, orphanExits := 0, map[], multiset{}, multiset{};
      new;
      assert Exec(INITIAL, []) == Some(INITIAL);
      InvReachable([], INITIAL);
    }

    /** Validates the request and admits it if a slot is free. */
    method HandleWebhook(req: Request) returns (status: nat)
      requires Valid()
      modifies this
      ensures Valid()
      ensures Admissible(secret, req) && old(slots) < CAPACITY ==>
                status == 200 && View() == Next(old(View()), Admit(req.body.path))
                && |calls| == |old(calls)| + 1 && calls[|old(calls)|].path == req.body.path
      ensures !(Admissible(secret, req) && old(slots) < CAPACITY) ==> View() == old(View())
      ensures status == 503 <==> Admissible(secret, req) && old(slots) == 8
      ensures status == 405 <==> !req.post
      ensures status == 401 <==> req.post && req.token != secret
      ensures status == 400 <==> req.post && req.token == secret && req.body.Unreadable?
      ensures status in {200, 400, 401, 405, 503}
    {
      if !req.post {
        return 405;
      }
      if req.token != secret {
        return 401;
      }
      match req.body
      case Unreadable => return 400;
      case NoProject => return 200;
      case Project(path) =>
        if path == "" || !ProjectPath.Validate(path).Accepted? {
          return 200;
        }
        if slots == CAPACITY {
          return 503;
        }
        InvStep(View(), Admit(path));
        slots := slots + 1;
        calls := calls + [Call(path, Admitted, false, false, None, None)];
        clock := clock + 1;
        return 200;
    }

    /** Trigger's first critical section. */
    method Register(c: CallId)
      requires Valid() && Enabled(View(), Event.Register(c))
      modifies this
      ensures Valid() && View() == Next(old(View()), Event.Register(c))
    {
      InvStep(View(), Event.Register(c));
      RegisterCalls(View(), c, c);
      var path := calls[c].path;
      if path in pending {
        var owner := pending[path];
        calls := calls[owner := calls[owner].(cancelled := true)];
      }
      calls := calls[c := calls[c].(phase := Waiting, registeredAt := Some(clock))];
      pending := pending[path := c];
      latest := latest[path := c];
      clock := clock + 1;
    }

    /** The parent context of a call ends during its debounce. */
    method ParentEnds(c: CallId)
      requires Valid() && Enabled(View(), Event.ParentEnds(c))
      modifies this
      ensures Valid() && View() == Next(old(View()), Event.ParentEnds(c))
    {
      InvStep(View(), Event.ParentEnds(c));
      calls := calls[c := calls[c].(parentEnded := true)];
      clock := clock + 1;
    }

    /** The debounce select; `timer` is the branch taken when both are ready. */
    method Debounce(c: CallId, timer: bool)
      requires Valid() && Enabled(View(), if timer then TimerFires(c) else Abort(c))
      modifies this
      ensures Valid() && View() == Next(old(View()), if timer then TimerFires(c) else Abort(c))
    {
      InvStep(View(), if timer then TimerFires(c) else Abort(c));
      if timer {
        calls := calls[c := calls[c].(phase := Fetching, fetchedAt := Some(clock))];
      } else {
        calls := calls[c := calls[c].(phase := Leaving)];
      }
      clock := clock + 1;
    }

    /** m.trigger returns, with or without an error. */
    method FetchReturns(c: CallId)
      requires Valid() && Enabled(View(), Event.FetchReturns(c))
      modifies this
      ensures Valid() && View() == Next(old(View()), Event.FetchReturns(c))
    {
      InvStep(View(), Event.FetchReturns(c));
      calls := calls[c := calls[c].(phase := Leaving)];
      clock := clock + 1;
    }

    /** Trigger's deferred critical section: the entry goes, whoever owns it. */
    method Cleanup(c: CallId)
      requires Valid() && Enabled(View(), Event.Cleanup(c))
      modifies this
      ensures Valid() && View() == Next(old(View()), Event.Cleanup(c))
    {
      ghost var after := Next(View(), Event.Cleanup(c));
      InvStep(View(), Event.Cleanup(c));
      var call := calls[c];
      foreignErasures, orphanExits := after.foreignErasures, after.orphanExits;
      pending := pending - {call.path};
      calls := calls[c := call.(phase := Left)];
      clock := clock + 1;
    }

    /** The goroutine's deferred receive from the semaphore. */
    method Release(c: CallId)
      requires Valid() && Enabled(View(), Event.Release(c))
      modifies this
      ensures Valid() && View() == Next(old(View()), Event.Release(c))
    {
      InvStep(View(), Event.Release(c));
      calls := calls[c := calls[c].(phase := Released)];
      slots := slots - 1;
      clock := clock + 1;
    }
  }

  /** A receiver exists only for a non-empty secret, so no request without a token is
      ever admissible. */
  method NewServer(secret: string) returns (server: Receiver?)
    ensures server == null <==> secret == ""
    ensures server != null ==> fresh(server) && server.Valid() && server.secret == secret
                               && server.View() == INITIAL
                               && forall req: Request | Admissible(server.secret, req) :: req.token != ""
  {
    if secret == "" {
      return null;
    }
    server := new Receiver(secret);
  }
}
