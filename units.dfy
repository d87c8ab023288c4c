/** The units sizes are shown in, and the order the "U" key steps through
    them: sectors, KiB, MiB, GiB, then sectors again. */
module Units {

  datatype Unit = Sectors | KiB | MiB | GiB

  /** The class's `name`. */
  function Name(u: Unit): string
  {
    match u
    case Sectors => "S"
    case KiB => "Ki"
    case MiB => "Mi"
    case GiB => "Gi"
  }

  /** `allocNext()`: the unit after u. */
  function AllocNext(u: Unit): Unit
  {
    match u
    case Sectors => KiB
    case KiB => MiB
    case MiB => GiB
    case GiB => Sectors
  }

  /** u after n steps. */
  function Iterate(u: Unit, n: nat): Unit
  {
    if n == 0 then u else AllocNext(Iterate(u, n - 1))
  }

  /** Four steps come back to the start, and no fewer do. */
  lemma {:induction false} CycleOfFour(u: Unit, n: nat)
    ensures Iterate(u, n) == u <==> n % 4 == 0
  {
    if n >= 4 {
      CycleOfFour(u, n - 4);
      IterateAdd(u, n - 4);
    } else {
      assert Iterate(u, 1) == AllocNext(u);
      assert Iterate(u, 2) == AllocNext(AllocNext(u));
      assert Iterate(u, 3) == AllocNext(AllocNext(AllocNext(u)));
    }
  }

  lemma IterateAdd(u: Unit, n: nat)
    ensures Iterate(u, n + 4) == Iterate(u, n)
  {
    if n > 0 {
      IterateAdd(u, n - 1);
    } else {
      assert Iterate(u, 4) == AllocNext(AllocNext(AllocNext(AllocNext(u))));
    }
  }

  /** Every unit is reached from every other within four steps. */
  lemma ReachesAll(u: Unit, v: Unit)
    ensures exists n :: 0 <= n < 4 && Iterate(u, n) == v
  {
    assert Iterate(u, 1) == AllocNext(u);
    assert Iterate(u, 2) == AllocNext(AllocNext(u));
    assert Iterate(u, 3) == AllocNext(AllocNext(AllocNext(u)));
  }
}
