/** The static worker topology: processes, their local workers and the dense global ids. */
module WorkerInfo {
  import opened Seqs

  /** `globalIds[i][j]` is the global id of local worker `j` of process `i`. */
  datatype WorkerInfo = WorkerInfo(globalIds: seq<seq<nat>>) {
    function NumProcesses(): nat { |globalIds| }

    function NumLocalWorkers(i: nat): nat
      requires i < NumProcesses()
    {
      |globalIds[i]|
    }

    function LocalToGlobalId(i: nat, j: nat): nat
      requires i < NumProcesses() && j < NumLocalWorkers(i)
    {
      globalIds[i][j]
    }

    /** Every global id lies below `numWorkers`, and distinct (process, local worker) pairs get distinct ids. */
    predicate Valid(numWorkers: nat) {
      && (forall i, j :: 0 <= i < |globalIds| && 0 <= j < |globalIds[i]| ==> globalIds[i][j] < numWorkers)
      && (forall i, j, i', j' ::
            (0 <= i < |globalIds| && 0 <= j < |globalIds[i]| && 0 <= i' < |globalIds| && 0 <= j' < |globalIds[i']|
             && (i != i' || j != j')) ==> globalIds[i][j] != globalIds[i'][j'])
    }

    /** The global ids in enumeration order: process by process, local worker by local worker. */
    function AllIds(): seq<nat> { Flatten(globalIds) }
  }

  function Flatten(ss: seq<seq<nat>>): seq<nat> {
    if ss == [] then [] else Flatten(ss[..|ss| - 1]) + ss[|ss| - 1]
  }

  /** An id is enumerated exactly when some (process, local worker) pair carries it. */
  lemma {:induction false} FlattenMember(ss: seq<seq<nat>>, d: nat)
    ensures d in Flatten(ss) <==> exists i, j :: 0 <= i < |ss| && 0 <= j < |ss[i]| && ss[i][j] == d
  {
    if ss != [] {
      var init := ss[..|ss| - 1];
      FlattenMember(init, d);
      if d in Flatten(ss) {
        if d in Flatten(init) {
          var i, j :| 0 <= i < |init| && 0 <= j < |init[i]| && init[i][j] == d;
          assert ss[i][j] == d;
        } else {
          var j :| 0 <= j < |ss[|ss| - 1]| && ss[|ss| - 1][j] == d;
        }
      } else {
        forall i, j | 0 <= i < |ss| && 0 <= j < |ss[i]| ensures ss[i][j] != d {
          if i < |ss| - 1 {
            assert init[i][j] == ss[i][j];
          } else {
            assert ss[i][j] in ss[|ss| - 1];
          }
        }
      }
    }
  }

  /** Under a valid topology the enumeration visits every worker id exactly once. */
  lemma {:induction false} AllIdsNoDup(w: WorkerInfo, n: nat)
    requires w.Valid(n)
    ensures NoDup(w.AllIds())
    ensures forall d :: d in w.AllIds() ==> d < n
  {
    FlattenNoDup(w.globalIds, n);
  }

  lemma {:induction false} FlattenNoDup(ss: seq<seq<nat>>, n: nat)
    requires WorkerInfo(ss).Valid(n)
    ensures NoDup(Flatten(ss))
    ensures forall d :: d in Flatten(ss) ==> d < n
  {
    if ss != [] {
      var init := ss[..|ss| - 1];
      var last := ss[|ss| - 1];
      assert WorkerInfo(init).Valid(n) by {
        forall i, j | 0 <= i < |init| && 0 <= j < |init[i]| ensures init[i][j] == ss[i][j] { }
      }
      FlattenNoDup(init, n);
      var f := Flatten(init);
      assert Flatten(ss) == f + last;
      forall a, b | 0 <= a < b < |f + last| ensures (f + last)[a] != (f + last)[b] {
        if b < |f| {
        } else if a >= |f| {
          assert (f + last)[a] == ss[|ss| - 1][a - |f|];
          assert (f + last)[b] == ss[|ss| - 1][b - |f|];
        } else {
          var x := f[a];
          FlattenMember(init, x);
          var i, j :| 0 <= i < |init| && 0 <= j < |init[i]| && init[i][j] == x;
          assert ss[i][j] == x;
          assert (f + last)[b] == ss[|ss| - 1][b - |f|];
        }
      }
      forall d | d in Flatten(ss) ensures d < n {
        FlattenMember(ss, d);
      }
    }
  }
}
