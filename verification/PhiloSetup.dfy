/** init_forks_and_philos: the wiring of the ring that the state machine assumes. */
module PhiloSetup {
  import opened PhiloTable

  /** One element of the `philos` array; forks are named by their place in `forks`. */
  datatype Seat = Seat(id: int, meals: nat, lfork: int, rfork: int)

  /** The philosopher who has the fork on the other side. */
  function Next(t: Table, i: int): int {
    if i + 1 == t.n then 0 else i + 1
  }

  ghost predicate Wired(t: Table, seats: seq<Seat>) {
    && |seats| == t.n
    && forall i {:trigger seats[i]} | 0 <= i < t.n ::
         seats[i] == Seat(i + 1, 0, Left(t, i), Right(t, i))
  }

  /** The outcomes of the pthread_mutex_init calls, in the order they are made. */
  datatype Outcomes = Outcomes(dead: bool, printing: bool, meal: bool, forks: seq<bool>)

  predicate AllInitialised(o: Outcomes) {
    o.dead && o.printing && o.meal && forall i | 0 <= i < |o.forks| :: o.forks[i]
  }

  /** `init_forks_and_philos`: the first mutex that fails to initialise ends it, with the seats
      before it wired and the others untouched. */
  method InitForksAndPhilos(t: Table, forks: array<bool>, philos: array<Seat>, o: Outcomes)
    returns (code: int, ghost done: nat)
    requires t.n <= forks.Length && t.n <= philos.Length && |o.forks| == t.n
    modifies forks, philos
    ensures code == if AllInitialised(o) then 0 else 1
    ensures code == 0 ==> done == t.n && Wired(t, philos[..t.n])
    ensures done <= t.n
    ensures code == 1 ==> if o.dead && o.printing && o.meal then done < t.n && !o.forks[done] else done == 0
    ensures forall i | 0 <= i < done :: o.forks[i] && forks[i] && philos[i] == Seat(i + 1, 0, Left(t, i), Right(t, i))
    ensures forks[done..] == old(forks[done..]) && philos[done..] == old(philos[done..])
  {
    done := 0;
    if !o.dead || !o.printing || !o.meal {
      return 1, done;
    }
    var i := 0;
    while i < t.n
      invariant 0 <= i <= t.n && done == i
      invariant forall k | 0 <= k < i :: o.forks[k] && forks[k] && philos[k] == Seat(k + 1, 0, Left(t, k), Right(t, k))
      invariant forks[i..] == old(forks[i..]) && philos[i..] == old(philos[i..])
    {
      if !o.forks[i] {
        return 1, done;
      }
      forks[i] := true;
      var rfork := 0;
      if i == 0 {
        rfork := t.n - 1;
      } else {
        rfork := i - 1;
      }
      philos[i] := Seat(i + 1, 0, i, rfork);
      i := i + 1;
      done := i;
    }
    code := 0;
  }

  /** In a wired ring every fork lies between two philosophers: it is the left fork of one and
      the right fork of the next, and of nobody else. */
  lemma ForkBetweenTwo(t: Table, seats: seq<Seat>, f: int, i: int)
    requires Wired(t, seats) && 0 <= f < t.n && 0 <= i < t.n
    ensures seats[f].lfork == f && seats[Next(t, f)].rfork == f
    ensures seats[i].lfork == f <==> i == f
    ensures seats[i].rfork == f <==> i == Next(t, f)
  {
    assert seats[Next(t, f)].id == Next(t, f) + 1;
  }

  /** The order in which the state machine takes forks is the one `take_forks` gets from the id
      and the two fork pointers. */
  lemma OrderFromId(t: Table, seats: seq<Seat>, i: int)
    requires Wired(t, seats) && 0 <= i < t.n
    ensures First(t, i) == if seats[i].id % 2 == 0 then seats[i].rfork else seats[i].lfork
    ensures Second(t, i) == if seats[i].id % 2 == 0 then seats[i].lfork else seats[i].rfork
    ensures t.n >= 2 ==> First(t, i) != Second(t, i)
  {
    var seat := seats[i];
  }
}
