/** Worked examples over the model: three scaffolds under SL and under SLT descending, and two suffixes. */
module Samples {
  import opened Text
  import opened Generics
  import opened StableSort
  import opened SortFasta

  function Bases(n: nat): string {
    seq(n, _ => 'A')
  }

  function SampleRecords(): seq<FastaRecord> {
    [FastaRecord("chr1_A", Bases(500)), FastaRecord("chr2_X", Bases(300)), FastaRecord("chr3_B", Bases(700))]
  }

  const Chr1: Scaffold := Scaffold("chr1_A", "A", false, 500, 0, 0)
  const Chr2: Scaffold := Scaffold("chr2_X", "X", true, 300, 1, 0)
  const Chr3: Scaffold := Scaffold("chr3_B", "B", false, 700, 2, 0)

  lemma SampleEntry(id: string, length: nat, position: nat)
    requires |id| >= 2 && id[|id| - 2] == '_' && id[|id| - 1] != '_'
    ensures MakeScaffold(FastaRecord(id, Bases(length)), position)
      == Scaffold(id, [id[|id| - 1]], IsSexMarker(id[|id| - 1]), length, position, 0)
  {
    var head := id[..|id| - 2];
    var tail := [id[|id| - 1]];
    assert id == head + "_" + tail;
    IdSuffixAfterLastUnderscore(head, tail);
  }

  lemma SampleEntries()
    ensures MakeScaffold(SampleRecords()[0], 0) == Chr1
    ensures MakeScaffold(SampleRecords()[1], 1) == Chr2
    ensures MakeScaffold(SampleRecords()[2], 2) == Chr3
  {
    SampleEntry("chr1_A", 500, 0);
    SampleEntry("chr2_X", 300, 1);
    SampleEntry("chr3_B", 700, 2);
  }

  /** The index of the sample: suffixes A, X and B, only chr2_X a sex scaffold. */
  lemma SampleIndex()
    ensures ScaffoldIndex(SampleRecords()) == [Chr1, Chr2, Chr3]
  {
    SampleEntries();
    IndexOfThree(SampleRecords()[0], SampleRecords()[1], SampleRecords()[2]);
  }

  lemma IndexOfThree(r0: FastaRecord, r1: FastaRecord, r2: FastaRecord)
    ensures ScaffoldIndex([r0, r1, r2]) == [MakeScaffold(r0, 0), MakeScaffold(r1, 1), MakeScaffold(r2, 2)]
  {
  }

  lemma PartThree(x: Scaffold, y: Scaffold, z: Scaffold)
    requires !x.isSex && y.isSex && !z.isSex
    ensures OfSex([x, y, z], true) == [y]
    ensures OfSex([x, y, z], false) == [x, z]
  {
    assert [x, y, z] == [x] + ([y] + ([z] + []));
    OfSexCons(x, [y, z], true);
    OfSexCons(y, [z], true);
    OfSexCons(z, [], true);
    OfSexCons(x, [y, z], false);
    OfSexCons(y, [z], false);
    OfSexCons(z, [], false);
  }

  lemma SortThree(x: Scaffold, y: Scaffold, z: Scaffold, order: Order)
    requires !InOrder(x, y, order) && InOrder(x, z, order)
    ensures StableSortByLength([x, y, z], order) == [y, x, z]
  {
    assert [x, y, z][..2] == [x, y];
    assert [x, y][..1] == [x];
    assert StableSortByLength([x], order) == [x];
    assert StableSortByLength([x, y], order) == Insert([x], y, order);
    assert Insert([], y, order) == [y];
    assert Insert([x], y, order) == [y, x];
    assert Insert([y, x], z, order) == [y, x, z];
  }

  lemma SortTwo(x: Scaffold, y: Scaffold, order: Order)
    requires !InOrder(x, y, order)
    ensures StableSortByLength([x, y], order) == [y, x]
  {
    assert [x, y][..1] == [x];
    assert StableSortByLength([x], order) == [x];
    assert Insert([], y, order) == [y];
  }

  /** "SL" ascending orders the sample by length: chr2_X, chr1_A, chr3_B. */
  lemma SampleSortLength()
    ensures Reorder(ScaffoldIndex(SampleRecords()), "SL", "ASCENDING") == Some([Chr2, Chr1, Chr3])
  {
    SampleIndex();
    SortThree(Chr1, Chr2, Chr3, Ascending);
  }

  /** "SLT" descending puts the one sex scaffold first, then the others by
      decreasing length: chr2_X, chr3_B, chr1_A. */
  lemma SampleSexTopDescending()
    ensures Reorder(ScaffoldIndex(SampleRecords()), "SLT", "DESCENDING") == Some([Chr2, Chr3, Chr1])
  {
    SampleIndex();
    SexTopDescendingOnIndex();
  }

  lemma SexTopDescendingOnIndex()
    ensures Reorder([Chr1, Chr2, Chr3], "SLT", "DESCENDING") == Some([Chr2, Chr3, Chr1])
  {
    PartThree(Chr1, Chr2, Chr3);
    assert "DESCENDING"[0] != "ASCENDING"[0];
    assert Arrange([Chr2], "DESCENDING") == StableSortByLength([Chr2], Descending) == [Chr2];
    SortTwo(Chr1, Chr3, Descending);
    assert Arrange([Chr1, Chr3], "DESCENDING") == [Chr3, Chr1];
    assert [Chr2] + [Chr3, Chr1] == [Chr2, Chr3, Chr1];
  }

  /** A suffix with a sex letter: "scaffold_12_Wmt" gives "Wmt", a sex scaffold. */
  lemma SampleSexSuffix()
    ensures IdSuffix("scaffold_12_Wmt") == "Wmt" && ContainsSexScaff("Wmt")
  {
    assert "scaffold_12" + "_" + "Wmt" == "scaffold_12_Wmt";
    IdSuffixAfterLastUnderscore("scaffold_12", "Wmt");
    assert IsSexMarker("Wmt"[0]);
  }

  /** An id without an underscore gets the suffix "NA", which is not a sex suffix. */
  lemma SampleNoSuffix()
    ensures IdSuffix("scaffold12") == "NA" && !ContainsSexScaff("NA")
  {
    var id := "scaffold12";
    assert forall k :: 0 <= k < |id| ==> id[k] != '_';
    assert !IsSexMarker("NA"[0]) && !IsSexMarker("NA"[1]);
  }
}
