/** One cancellation token per cluster whose spawn task is in flight. */
module TaskRegistry {
  import opened Domain

  /** A flag shared between whoever may cancel and the task that watches it. */
  class CancellationToken {
    var cancelled: bool

    constructor ()
      ensures !cancelled
    {
      cancelled := false;
    }

    method Cancel()
      modifies this
      ensures cancelled
    {
      cancelled := true;
    }
  }

  class Registry {
    var tokens: map<ClusterId, CancellationToken>

    /** No token serves two clusters. */
    ghost predicate Valid()
      reads this
    {
      forall c, d :: c in tokens && d in tokens && tokens[c] == tokens[d] ==> c == d
    }

    ghost function Tokens(): set<CancellationToken>
      reads this
    {
      tokens.Values
    }

    /** Which clusters are registered, and whether each has been told to stop. */
    ghost function View(): map<ClusterId, bool>
      reads this, Tokens()
    {
      map id | id in tokens :: tokens[id].cancelled
    }

    constructor ()
      ensures Valid() && View() == map[]
    {
      tokens := map[];
    }

    /** Any earlier token of `id` is dropped without being cancelled. */
    method Register(id: ClusterId) returns (token: CancellationToken)
      requires Valid()
      modifies this
      ensures Valid() && fresh(token) && tokens == old(tokens)[id := token]
      ensures View() == old(View())[id := false]
    {
      token := new CancellationToken();
      tokens := tokens[id := token];
    }

    /** Reaches the token handed out for `id`, and no other. */
    method Cancel(id: ClusterId)
      requires Valid()
      modifies Tokens()
      ensures Valid() && tokens == old(tokens)
      ensures View() == if id in old(View()) then old(View())[id := true] else old(View())
      ensures id in tokens ==> tokens[id].cancelled
    {
      if id in tokens {
        tokens[id].Cancel();
      }
    }

    method Unregister(id: ClusterId)
      requires Valid()
      modifies this
      ensures Valid() && tokens == old(tokens) - {id}
      ensures View() == old(View()) - {id}
    {
      tokens := tokens - {id};
    }
  }

  /** A delete that arrives while a spawn is in flight stops that spawn, whatever else is registered,
      and one that arrives after it has finished does nothing. */
  method CancelReachesTheSpawn(registry: Registry, id: ClusterId, other: ClusterId) returns (token: CancellationToken)
    requires registry.Valid() && id != other
    modifies registry, registry.Tokens()
    ensures fresh(token) && token.cancelled && id !in registry.tokens
    ensures other in registry.View() <==> other in old(registry.View())
    ensures other in registry.View() ==> registry.View()[other] == old(registry.View())[other]
  {
    token := registry.Register(id);
    registry.Cancel(id);
    registry.Unregister(id);
    registry.Cancel(id);
  }
}
