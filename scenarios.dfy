/** Worked examples of the queries on small concrete traces. */
module Scenarios {
  import opened Wrappers
  import opened Selection
  import opened Records
  import opened StringTable
  import opened Analysis

  /** A kernel row with the given row id, short-name id and correlation id, and zeros elsewhere. */
  function SampleKernel(rowid: int, shortName: int, correlationId: int): Kernel
  {
    Kernel(rowid, 0, 0, 0, 0, 0, 0, correlationId, 0, 0, shortName, 0, 0, 0, 0,
           1, 1, 1, 1, 1, 1, 0, 0, 0, 0, 0, 0, 0, 0,
           None, None, None, None, None, None, None, None, None, None)
  }

  /** Kernel rows 6, 7 and 8. */
  function LaterRows(): seq<Kernel>
  {
    [SampleKernel(6, 0, 6), SampleKernel(7, 0, 7), SampleKernel(8, 0, 8)]
  }

  /** Kernel rows 6, 7 and 8: the two rows after row 5 are rows 6 and 7, and asking for four fails. */
  lemma KernelsAfterScenario()
    ensures NextKernels(Db([], LaterRows(), [], None), SampleKernel(5, 0, 5), 2) == Success(LaterRows()[..2])
    ensures NextKernels(Db([], LaterRows(), [], None), SampleKernel(5, 0, 5), 4).Failure?
  {
    var kernels := LaterRows();
    var db := Db([], kernels, [], None);
    var following := KernelsFollowing(db, SampleKernel(5, 0, 5));
    assert Ascending(kernels, KernelRowId);
    assert forall k :: k in kernels ==> 5 < k.rowid;
    AscendingDetermined(following, kernels, KernelRowId);
  }

  /** Short names gemm_fp16, softmax and gemm_fp32 under ids 1, 2 and 3. */
  function GemmStrings(): seq<StringRow>
  {
    [StringRow(1, "gemm_fp16"), StringRow(2, "softmax"), StringRow(3, "gemm_fp32")]
  }

  /** One kernel per name, in rowid order. */
  function GemmKernels(): seq<Kernel>
  {
    [SampleKernel(1, 1, 11), SampleKernel(2, 2, 12), SampleKernel(3, 3, 13)]
  }

  /** Which of the three names contain "gemm". */
  lemma GemmNames()
    ensures IdMatches(GemmStrings(), 1, ["gemm"]) && IdMatches(GemmStrings(), 3, ["gemm"])
    ensures !IdMatches(GemmStrings(), 2, ["gemm"])
  {
    var strings, fragments := GemmStrings(), ["gemm"];
    assert OccursAt(strings[0].value, fragments[0], 0) && Contains(strings[0].value, fragments[0]);
    assert OccursAt(strings[2].value, fragments[0], 0) && Contains(strings[2].value, fragments[0]);
    forall k | 0 <= k <= 3 ensures !OccursAt("softmax", "gemm", k) {
      assert "softmax"[k] != 'g';
    }
  }

  /** The kernels selected by short names containing "gemm" are the first and the last. */
  lemma GemmMembers(db: Db, ks: seq<Kernel>)
    requires db.strings == GemmStrings() && db.kernels == GemmKernels()
    requires SelectedByName(ks, db, ShortNameColumn, ["gemm"])
    ensures forall x :: x in ks <==> x in [GemmKernels()[0], GemmKernels()[2]]
  {
    var kernels := GemmKernels();
    GemmNames();
    assert kernels[0] in ks && kernels[1] !in ks && kernels[2] in ks;
    forall x | x in ks ensures x == kernels[0] || x == kernels[2] {
      assert x in kernels;
      assert x == kernels[0] || x == kernels[1] || x == kernels[2];
    }
  }

  /** The only rowid-ascending arrangement of the first and the last gemm kernel. */
  lemma GemmOrder(ks: seq<Kernel>)
    requires Ascending(ks, KernelRowId)
    requires forall x :: x in ks <==> x in [GemmKernels()[0], GemmKernels()[2]]
    ensures ks == [GemmKernels()[0], GemmKernels()[2]]
  {
    var kernels := GemmKernels();
    assert Ascending([kernels[0], kernels[2]], KernelRowId);
    AscendingDetermined(ks, [kernels[0], kernels[2]], KernelRowId);
  }

  /** Searching short names for "gemm" finds the two gemm kernels, in rowid order. */
  lemma GemmScenario(db: Db)
    requires db.strings == GemmStrings() && db.kernels == GemmKernels()
    ensures GetKernels(db, Some(OneName("gemm"))) == Success([GemmKernels()[0], GemmKernels()[2]])
  {
    var r := GetKernels(db, Some(OneName("gemm")));
    assert Fragments(OneName("gemm")) == ["gemm"];
    assert Ascending(GemmKernels(), KernelRowId);
    GemmMembers(db, r.value);
    GemmOrder(r.value);
  }
}
