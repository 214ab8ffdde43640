/** FragMassTable: the fragment-mass recurrence with its sparse table of past
    states. Masses are kept abstract (the type parameter M) and the three
    pieces of the growth model that live outside the class declaration, the
    recurrence step, log-domain addition and the rule that decides when the
    next table index has been reached, are values of Recurrence<M>. */
module FragMass {

  datatype Recurrence<!M> = Recurrence(
    // next_frag_mass(n, curr_mass) for the table's fixed forgetting factor
    step: (nat, M) -> M,
    // addition of two logged masses
    logAdd: (M, M) -> M,
    // whether a table entry is due, given the new count and the current table size
    indexReached: (nat, nat) -> bool)

  ghost predicate StrictlyIncreasing(s: seq<nat>) {
    forall i, j :: 0 <= i < j < |s| ==> s[i] < s[j]
  }

  /** s[i] is the largest entry of s that does not exceed q. */
  ghost predicate IsFloorIndex(s: seq<nat>, q: nat, i: nat) {
    && i < |s|
    && s[i] <= q
    && forall j :: 0 <= j < |s| && s[j] <= q ==> s[j] <= s[i]
  }

  /** Reference definition of the floor lookup: scan from the last entry down. */
  function FloorIndex(s: seq<nat>, q: nat): (i: nat)
    requires |s| > 0 && s[0] <= q && StrictlyIncreasing(s)
    ensures IsFloorIndex(s, q, i)
  {
    if s[|s| - 1] <= q then |s| - 1 else FloorIndex(s[..|s| - 1], q)
  }

  /** In a strictly increasing table the floor index is unique. */
  lemma FloorIndexUnique(s: seq<nat>, q: nat, i: nat, j: nat)
    requires StrictlyIncreasing(s) && IsFloorIndex(s, q, i) && IsFloorIndex(s, q, j)
    ensures i == j
  {
    assert s[i] == s[j];
  }

  /** A larger query never finds a smaller stored count. */
  lemma FloorMonotone(s: seq<nat>, q1: nat, q2: nat)
    requires |s| > 0 && s[0] == 0 && StrictlyIncreasing(s) && q1 <= q2
    ensures FloorIndex(s, q1) <= FloorIndex(s, q2)
    ensures s[FloorIndex(s, q1)] <= s[FloorIndex(s, q2)]
  {
    var i1, i2 := FloorIndex(s, q1), FloorIndex(s, q2);
    assert s[i1] <= s[i2];
  }

  /** A query equal to a stored count finds exactly that count. */
  lemma FloorExactHit(s: seq<nat>, j: nat)
    requires |s| > 0 && s[0] == 0 && StrictlyIncreasing(s) && j < |s|
    ensures FloorIndex(s, s[j]) == j
  {
    FloorIndexUnique(s, s[j], FloorIndex(s, s[j]), j);
  }

  class FragMassTable<M> {
    /** The growth model; _ff_param is folded into `rec.step`. */
    const rec: Recurrence<M>
    /** The mass and cumulative mass the constructor seeds for n = 0. */
    ghost const mass0: M
    ghost const cumMass0: M

    /** _n: the number of observed fragments. */
    var n: nat
    /** _mass_n: the (logged) mass the latest step computed and returned, or
        the seed before the first step. */
    var massN: M
    /** _cum_mass_n: the (logged) sum of the seed and every mass returned so
        far; each step adds the mass it has just computed. */
    var cumMassN: M
    /** _n_table, _mass_table, _cum_mass_table: the parallel lookup tables. */
    var nTable: seq<nat>
    var massTable: seq<M>
    var cumMassTable: seq<M>
    /** The masses next_frag_mass() has returned, in order. */
    ghost var returned: seq<M>

    /** next_frag_mass(n, curr_mass): the recurrence alone. It reads no field
        of the table, so it neither depends on nor changes the live state. */
    function NextFragMassAt(k: nat, currMass: M): M {
      rec.step(k, currMass)
    }

    /** The value of _mass_n once the count is k. */
    ghost function MassAt(k: nat): M {
      if k == 0 then mass0 else NextFragMassAt(k - 1, MassAt(k - 1))
    }

    /** The value of _cum_mass_n once the count is k. */
    ghost function CumAt(k: nat): M {
      if k == 0 then cumMass0 else rec.logAdd(CumAt(k - 1), MassAt(k))
    }

    ghost predicate Valid()
      reads this
    {
      && |nTable| == |massTable| == |cumMassTable|
      && |nTable| > 0 && nTable[0] == 0
      && StrictlyIncreasing(nTable)
      && nTable[|nTable| - 1] <= n
      && massN == MassAt(n)
      && cumMassN == CumAt(n)
      && returned == ReturnedMasses(n)
      && forall i :: 0 <= i < |nTable| ==>
           massTable[i] == MassAt(nTable[i]) && cumMassTable[i] == CumAt(nTable[i])
    }

    /** The constructor seeds the live state and the one table entry for n = 0. */
    constructor (rec: Recurrence<M>, mass0: M, cumMass0: M)
      ensures Valid()
      ensures this.rec == rec && this.mass0 == mass0 && this.cumMass0 == cumMass0
      ensures n == 0 && massN == mass0 && cumMassN == cumMass0
      ensures nTable == [0] && massTable == [mass0] && cumMassTable == [cumMass0]
      ensures returned == []
    {
      this.rec := rec;
      this.mass0 := mass0;
      this.cumMass0 := cumMass0;
      n := 0;
      massN := mass0;
      cumMassN := cumMass0;
      nTable := [0];
      massTable := [mass0];
      cumMassTable := [cumMass0];
      returned := [];
    }

    /** next_frag_mass(): advance the recurrence by one fragment. */
    method NextFragMass() returns (mass: M)
      requires Valid()
      modifies this
      ensures Valid()
      ensures n == old(n) + 1
      ensures massN == NextFragMassAt(old(n), old(massN)) && mass == massN
      ensures cumMassN == rec.logAdd(old(cumMassN), massN)
      ensures var entry := rec.indexReached(n, old(|nTable|));
        && nTable == old(nTable) + (if entry then [n] else [])
        && massTable == old(massTable) + (if entry then [massN] else [])
        && cumMassTable == old(cumMassTable) + (if entry then [cumMassN] else [])
      ensures returned == old(returned) + [mass]
    {
      var next := NextFragMassAt(n, massN);
      assert next == MassAt(n + 1);
      assert rec.logAdd(cumMassN, next) == CumAt(n + 1);
      assert returned + [next] == ReturnedMasses(n + 1);
      cumMassN := rec.logAdd(cumMassN, next);
      massN := next;
      n := n + 1;
      if rec.indexReached(n, |nTable|) {
        nTable := nTable + [n];
        massTable := massTable + [massN];
        cumMassTable := cumMassTable + [cumMassN];
      }
      mass := massN;
      returned := returned + [mass];
    }

    /** n_to_index(q): binary search for the last table entry not above q. */
    method NToIndex(q: nat) returns (i: nat)
      requires Valid()
      ensures IsFloorIndex(nTable, q, i)
      ensures i == FloorIndex(nTable, q)
    {
      var lo, hi := 0, |nTable|;
      while lo + 1 < hi
        invariant 0 <= lo < hi <= |nTable|
        invariant nTable[lo] <= q
        invariant forall j :: hi <= j < |nTable| ==> q < nTable[j]
        decreases hi - lo
      {
        var mid := (lo + hi) / 2;
        if nTable[mid] <= q {
          lo := mid;
        } else {
          hi := mid;
        }
      }
      i := lo;
      FloorIndexUnique(nTable, q, i, FloorIndex(nTable, q));
    }

    /** nearest_stored_mass(q, mass, cum_mass): the nearest stored count not
        above q, with the masses recorded for it. */
    method NearestStoredMass(q: nat) returns (k: nat, mass: M, cumMass: M)
      requires Valid()
      ensures k in nTable && k <= q
      ensures forall j :: 0 <= j < |nTable| && nTable[j] <= q ==> nTable[j] <= k
      ensures var i := FloorIndex(nTable, q);
        k == nTable[i] && mass == massTable[i] && cumMass == cumMassTable[i]
      ensures mass == MassAt(k) && cumMass == CumAt(k)
      ensures q in nTable ==> k == q
      ensures nTable[|nTable| - 1] <= q ==> k == nTable[|nTable| - 1]
    {
      var i := NToIndex(q);
      k, mass, cumMass := nTable[i], massTable[i], cumMassTable[i];
    }

    /** Replays the recurrence j steps forward from count k with masses (m, c),
        as a caller does to catch up from a stored entry. */
    function Replay(k: nat, m: M, c: M, j: nat): (M, M)
      decreases j
    {
      if j == 0 then (m, c)
      else
        var m' := NextFragMassAt(k, m);
        Replay(k + 1, m', rec.logAdd(c, m'), j - 1)
    }

    /** Replaying from the state at count k for j steps reaches the state at k + j. */
    lemma {:induction false} ReplayFromState(k: nat, j: nat)
      ensures Replay(k, MassAt(k), CumAt(k), j) == (MassAt(k + j), CumAt(k + j))
      decreases j
    {
      if j > 0 {
        ReplayFromState(k + 1, j - 1);
      }
    }

    /** From the entry nearest_stored_mass returns for q, replaying q - k steps
        recovers the exact state at q, and at the live count the live state. */
    lemma CatchUp(q: nat, k: nat, mass: M, cumMass: M)
      requires Valid()
      requires k <= q && mass == MassAt(k) && cumMass == CumAt(k)
      ensures Replay(k, mass, cumMass, q - k) == (MassAt(q), CumAt(q))
      ensures q == n ==> Replay(k, mass, cumMass, q - k) == (massN, cumMassN)
    {
      ReplayFromState(k, q - k);
    }

    /** The masses next_frag_mass() has returned after k calls, in order. */
    ghost function ReturnedMasses(k: nat): (ms: seq<M>)
      ensures |ms| == k
    {
      if k == 0 then [] else ReturnedMasses(k - 1) + [MassAt(k)]
    }

    /** The log-domain sum of the cumulative mass seed and the masses ms, in order. */
    ghost function LogSum(c: M, ms: seq<M>): M {
      if ms == [] then c else rec.logAdd(LogSum(c, ms[..|ms| - 1]), ms[|ms| - 1])
    }

    /** After k steps the cumulative mass is the log-domain sum of the seed
        and every mass returned so far. */
    lemma {:induction false} CumIsLogSum(k: nat)
      ensures CumAt(k) == LogSum(cumMass0, ReturnedMasses(k))
    {
      if k > 0 {
        CumIsLogSum(k - 1);
        var ms := ReturnedMasses(k);
        assert ms[..|ms| - 1] == ReturnedMasses(k - 1);
      }
    }

    /** The live cumulative mass is the log-domain sum of the seed and every
        mass next_frag_mass() has actually returned. */
    lemma LiveCumIsLogSum()
      requires Valid()
      ensures cumMassN == LogSum(cumMass0, returned)
    {
      CumIsLogSum(n);
    }
  }
}
