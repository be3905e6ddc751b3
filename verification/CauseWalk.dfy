/** The walk along an exception's cause, else its context, looking for a missing-cipher error.
    Exceptions may refer to each other in cycles. */
module CauseWalk {
  import opened Wrappers

  type Id = nat

  datatype Exc = Exc(missingCipher: bool, cause: Option<Id>, context: Option<Id>)

  /** A finite set of exceptions closed under cause and context. */
  type Graph = map<Id, Exc>

  predicate LinksIn(g: Graph, x: Id)
    requires x in g
  {
    (g[x].cause.Some? ==> g[x].cause.value in g) && (g[x].context.Some? ==> g[x].context.value in g)
  }

  predicate Closed(g: Graph) {
    forall x {:trigger LinksIn(g, x)} :: x in g ==> LinksIn(g, x)
  }

  function Next(e: Exc): Option<Id> {
    if e.cause.Some? then e.cause else e.context
  }

  /** The exception `n` links along the chain from `start`, if the chain is that long. */
  ghost function Link(g: Graph, start: Id, n: nat): Option<Id>
    requires Closed(g) && start in g
    ensures Link(g, start, n).Some? ==> Link(g, start, n).value in g
  {
    if n == 0 then Some(start)
    else
      var prev := Link(g, start, n - 1);
      if prev.Some? then
        assert LinksIn(g, prev.value);
        Next(g[prev.value])
      else None
  }

  ghost predicate OnChain(g: Graph, start: Id, n: nat)
    requires Closed(g) && start in g
  {
    Link(g, start, n).Some? && g[Link(g, start, n).value].missingCipher
  }

  /** The link after `x` leads into `seen`, or to `cur`. */
  predicate LeadsInto(g: Graph, x: Id, seen: set<Id>, cur: Option<Id>) {
    x in g && (Next(g[x]).Some? ==> Next(g[x]).value in seen || Next(g[x]) == cur)
  }

  /** A set that contains the start and is closed under the next link contains the whole chain. */
  lemma {:induction false} ChainStaysIn(g: Graph, start: Id, seen: set<Id>, cur: Option<Id>, n: nat)
    requires Closed(g) && start in g && start in seen && (cur.Some? ==> cur.value in seen)
    requires forall x {:trigger LeadsInto(g, x, seen, cur)} :: x in seen ==> LeadsInto(g, x, seen, cur)
    ensures Link(g, start, n).Some? ==> Link(g, start, n).value in seen
  {
    if n > 0 {
      ChainStaysIn(g, start, seen, cur, n - 1);
      var prev := Link(g, start, n - 1);
      if prev.Some? {
        assert LeadsInto(g, prev.value, seen, cur);
      }
    }
  }

  /** The walk ends on every graph, cyclic ones included, and says yes if and only if a
      missing-cipher error lies on the chain. */
  method HasMissingCipherCause(g: Graph, exc: Id) returns (found: bool)
    requires Closed(g) && exc in g
    ensures found <==> exists n :: OnChain(g, exc, n)
  {
    var seen: set<Id> := {};
    var cur: Option<Id> := Some(exc);
    ghost var i: nat := 0;
    while cur.Some? && cur.value !in seen
      invariant cur == Link(g, exc, i)
      invariant seen <= g.Keys
      invariant forall x :: x in seen ==> !g[x].missingCipher
      invariant forall x {:trigger LeadsInto(g, x, seen, cur)} :: x in seen ==> LeadsInto(g, x, seen, cur)
      invariant exc in seen || cur == Some(exc)
      decreases g.Keys - seen
    {
      var here := cur.value;
      if g[here].missingCipher {
        assert OnChain(g, exc, i);
        return true;
      }
      ghost var was, at := seen, cur;
      seen := seen + {here};
      cur := Next(g[here]);
      i := i + 1;
      forall x | x in seen ensures LeadsInto(g, x, seen, cur) {
        assert x in was ==> LeadsInto(g, x, was, at);
      }
    }
    forall n: nat ensures !OnChain(g, exc, n) {
      ChainStaysIn(g, exc, seen, cur, n);
    }
    return false;
  }

  /** The chain: the start, and after each exception its cause if it has one, else its context. */
  lemma LinkMeans(g: Graph, start: Id, n: nat)
    requires Closed(g) && start in g
    ensures Link(g, start, 0) == Some(start)
    ensures Link(g, start, n + 1) ==
            if Link(g, start, n).None? then None
            else if g[Link(g, start, n).value].cause.Some? then g[Link(g, start, n).value].cause
            else g[Link(g, start, n).value].context
  {
  }

  /** So the chain of an exception with a cause goes on as the chain of the cause, whatever its context;
      without a cause, as that of the context; and without either it ends. */
  lemma {:induction false} ChainGoesOn(g: Graph, x: Id, n: nat)
    requires Closed(g) && x in g
    ensures LinksIn(g, x)
    ensures Link(g, x, n + 1) ==
            if g[x].cause.Some? then Link(g, g[x].cause.value, n)
            else if g[x].context.Some? then Link(g, g[x].context.value, n)
            else None
  {
    assert LinksIn(g, x);
    if n > 0 {
      ChainGoesOn(g, x, n - 1);
    } else {
      LinkMeans(g, x, 0);
    }
  }
}
