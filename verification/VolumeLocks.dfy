/**
 The named, non-blocking locks shared by all handlers of a server
 (pkg/util/volume_lock.go), and the bookkeeping of who holds which name.
 */
module VolumeLocks {
  /** A set of names with an operation in progress. Each call is atomic: the source runs it under a mutex. */
  class Locks {
    var names: set<string>

    constructor ()
      ensures names == {}
    {
      names := {};
    }

    /** Fails exactly when the name is taken; a failed call changes nothing. */
    method TryAcquire(name: string) returns (acquired: bool)
      modifies this
      ensures acquired <==> name !in old(names)
      ensures names == old(names) + {name}
    {
      if name in names {
        return false;
      }
      names := names + {name};
      return true;
    }

    method Release(name: string)
      modifies this
      ensures names == old(names) - {name}
    {
      names := names - {name};
    }
  }

  /** locks is the disjoint union of what the holders hold. */
  ghost predicate Partitions<H, N>(held: map<H, set<N>>, locks: set<N>) {
    && (forall h | h in held :: held[h] <= locks)
    && (forall g, h | g in held && h in held && g != h :: held[g] !! held[h])
    && (forall n | n in locks :: exists h :: h in held && n in held[h])
  }

  function HeldBy<H, N>(held: map<H, set<N>>, h: H): set<N> {
    if h in held then held[h] else {}
  }

  /** The names held by each member of a population. */
  function Image<H, R, N>(population: map<H, R>, holds: R -> set<N>): map<H, set<N>> {
    map h | h in population :: holds(population[h])
  }

  /** The union stays disjoint when one holder frees names of its own and takes only names nobody has. */
  lemma HoldingsChange<H(!new), N(!new)>(
    held: map<H, set<N>>, locks: set<N>, held': map<H, set<N>>, locks': set<N>, h: H)
    requires Partitions(held, locks)
    requires forall g | g != h :: (g in held <==> g in held') && (g in held ==> held[g] == held'[g])
    requires locks' == locks - HeldBy(held, h) + HeldBy(held', h)
    requires (HeldBy(held', h) - HeldBy(held, h)) !! locks
    ensures Partitions(held', locks')
  {
    forall n | n in locks'
      ensures exists g :: g in held' && n in held'[g]
    {
      if n in HeldBy(held', h) {
        assert h in held';
      } else {
        var g :| g in held && n in held[g];
        assert g != h;
      }
    }
  }

  /** One member changes what it holds, or leaves when there is nothing after. */
  lemma MemberChange<H(!new), R, N(!new)>(population: map<H, R>, holds: R -> set<N>, locks: set<N>,
                                          h: H, after: seq<R>, locks': set<N>)
    requires Partitions(Image(population, holds), locks) && |after| <= 1
    requires var before := if h in population then holds(population[h]) else {};
             var held := if after == [] then {} else holds(after[0]);
             locks' == locks - before + held && (held - before) !! locks
    ensures Partitions(Image(if after == [] then population - {h} else population[h := after[0]], holds), locks')
  {
    var population' := if after == [] then population - {h} else population[h := after[0]];
    HoldingsChange(Image(population, holds), locks, Image(population', holds), locks', h);
  }
}
