/** The close-notification hooks of a client's stream. The stream calls them
    first-registered-last-called; lwp_server_client_new registers the
    lifecycle hook (on_client_close) before anything else, so that it runs
    after every hook a user adds later (src/windows/server.c:122-126). */
module CloseHooks {

  /** A close hook: the server's own on_client_close, or one a user added. */
  datatype CloseHook = Lifecycle | User(id: nat)

  /** The hooks of a client in registration order: the lifecycle hook first
      and only there. */
  predicate WellFormed(hooks: seq<CloseHook>)
  {
    |hooks| > 0 && hooks[0] == Lifecycle && forall i :: 1 <= i < |hooks| ==> hooks[i].User?
  }

  /** The order in which the stream calls hooks registered in order `hooks`. */
  function FiringOrder(hooks: seq<CloseHook>): (r: seq<CloseHook>)
    ensures |r| == |hooks|
    ensures forall i :: 0 <= i < |hooks| ==> r[i] == hooks[|hooks| - 1 - i]
  {
    if hooks == [] then [] else FiringOrder(hooks[1..]) + [hooks[0]]
  }

  /** In a well-formed registration the lifecycle hook fires last, and every
      hook fired before it is a user's. */
  lemma LifecycleFiresLast(hooks: seq<CloseHook>)
    requires WellFormed(hooks)
    ensures FiringOrder(hooks)[|hooks| - 1] == Lifecycle
    ensures forall i :: 0 <= i < |hooks| - 1 ==> FiringOrder(hooks)[i].User?
  {
  }

  /** Registering one more hook makes it the first to fire, ahead of all the
      earlier ones in their old order. */
  lemma {:induction false} LatestFiresFirst(hooks: seq<CloseHook>, h: CloseHook)
    ensures FiringOrder(hooks + [h]) == [h] + FiringOrder(hooks)
  {
    var l, r := FiringOrder(hooks + [h]), [h] + FiringOrder(hooks);
    assert |l| == |r|;
    forall i | 0 <= i < |l| ensures l[i] == r[i] {
      if i > 0 {
        assert l[i] == (hooks + [h])[|hooks| - i];
      }
    }
  }

  /** Adding a user hook keeps the registration well formed. */
  lemma AddUserKeepsWellFormed(hooks: seq<CloseHook>, id: nat)
    requires WellFormed(hooks)
    ensures WellFormed(hooks + [User(id)])
  {
  }
}
