/** The `sort` command (src/processors/sort_fasta.rs): split the index into
    sex and non-sex scaffolds, order each part by length, join the parts
    according to the sort option, number the result, write the change log and
    write the reordered FASTA with wrapped sequence lines. */
module SortFasta {
  import opened Text
  import opened Generics
  import opened StableSort

  // ---------------------------------------------------------------------------
  // Partition by sex flag
  // ---------------------------------------------------------------------------

  /** The scaffolds of `s` whose sex flag is `sex`, in their order in `s`. */
  function OfSex(s: seq<Scaffold>, sex: bool): seq<Scaffold> {
    if s == [] then [] else (if s[0].isSex == sex then [s[0]] else []) + OfSex(s[1..], sex)
  }

  /** A part holds exactly the scaffolds of the input with its sex flag. */
  lemma {:induction false} OfSexMembers(s: seq<Scaffold>, sex: bool)
    ensures forall x :: x in OfSex(s, sex) <==> x in s && x.isSex == sex
  {
    if s != [] {
      OfSexMembers(s[1..], sex);
      assert s == [s[0]] + s[1..];
    }
  }

  /** The fold behind `Iterator::partition`: each scaffold is pushed onto the
      first list when it is a sex scaffold and onto the second otherwise. */
  function Partition(s: seq<Scaffold>, left: seq<Scaffold>, right: seq<Scaffold>): (r: (seq<Scaffold>, seq<Scaffold>))
    ensures r.0 == left + OfSex(s, true) && r.1 == right + OfSex(s, false)
  {
    if s == [] then (left, right)
    else if s[0].isSex then Partition(s[1..], left + [s[0]], right)
    else Partition(s[1..], left, right + [s[0]])
  }

  lemma {:induction false} OfSexPermutation(s: seq<Scaffold>)
    ensures multiset(OfSex(s, true)) + multiset(OfSex(s, false)) == multiset(s)
  {
    if s != [] {
      OfSexPermutation(s[1..]);
      assert s == [s[0]] + s[1..];
    }
  }

  /** `split_by_sex_scaff`: the sex scaffolds and the others, each in input
      order; together they are the input, rearranged. */
  function SplitBySexScaff(scaffolds: seq<Scaffold>): (r: (seq<Scaffold>, seq<Scaffold>))
    ensures r.0 == OfSex(scaffolds, true) && r.1 == OfSex(scaffolds, false)
    ensures forall x :: x in r.0 ==> x.isSex
    ensures forall x :: x in r.1 ==> !x.isSex
    ensures multiset(r.0) + multiset(r.1) == multiset(scaffolds)
  {
    OfSexPermutation(scaffolds);
    OfSexMembers(scaffolds, true);
    OfSexMembers(scaffolds, false);
    Partition(scaffolds, [], [])
  }

  // ---------------------------------------------------------------------------
  // Ordering each part
  // ---------------------------------------------------------------------------

  /** What `sex_based_sorting` does to one part: a stable sort by length for
      "ASCENDING" or "DESCENDING", and nothing for any other direction. */
  function Arrange(s: seq<Scaffold>, direction: string): seq<Scaffold> {
    if direction == "ASCENDING" then StableSortByLength(s, Ascending)
    else if direction == "DESCENDING" then StableSortByLength(s, Descending)
    else s
  }

  /** A part comes out as a rearrangement of itself, with equal lengths in their
      prior order; ordered by length ascending or descending as the direction
      says, and untouched for any other direction. */
  lemma ArrangeSpec(s: seq<Scaffold>, direction: string)
    ensures multiset(Arrange(s, direction)) == multiset(s)
    ensures SameLengthGroups(Arrange(s, direction), s)
    ensures direction == "ASCENDING" ==> SortedBy(Arrange(s, direction), Ascending)
    ensures direction == "DESCENDING" ==> SortedBy(Arrange(s, direction), Descending)
    ensures direction != "ASCENDING" && direction != "DESCENDING" ==> Arrange(s, direction) == s
  {
    var order := if direction == "ASCENDING" then Ascending else Descending;
    StableSortPermutation(s, order);
    StableSortSorted(s, order);
    StableSortStable(s, order);
  }

  /** One part as `sex_based_sorting` leaves it: copied into a vector and sorted
      in place by length when the direction is one of the two known ones. */
  method SortPart(part: seq<Scaffold>, direction: string) returns (sorted: seq<Scaffold>)
    ensures sorted == Arrange(part, direction)
  {
    var vec := new Scaffold[|part|](k requires 0 <= k < |part| => part[k]);
    assert vec[..] == part;
    if direction == "ASCENDING" {
      SortByLength(vec, Ascending);
    } else if direction == "DESCENDING" {
      SortByLength(vec, Descending);
    }
    sorted := vec[..];
  }

  /** `sex_based_sorting`: splits, then sorts both parts in place by length. */
  method SexBasedSorting(scaffolds: seq<Scaffold>, direction: string)
    returns (sexScaffs: seq<Scaffold>, nonSexScaffs: seq<Scaffold>)
    ensures sexScaffs == Arrange(OfSex(scaffolds, true), direction)
    ensures nonSexScaffs == Arrange(OfSex(scaffolds, false), direction)
  {
    var parts := SplitBySexScaff(scaffolds);
    sexScaffs := SortPart(parts.0, direction);
    nonSexScaffs := SortPart(parts.1, direction);
  }

  // ---------------------------------------------------------------------------
  // Sort options
  // ---------------------------------------------------------------------------

  /** The order `sort_fasta_main` computes for each sort option: "SLT" puts the
      sex part first, "SLB" last, "SL" sorts everything by ascending length
      whatever the direction; any other option reaches `unreachable!`. */
  function Reorder(scaffolds: seq<Scaffold>, sortOption: string, direction: string): Option<seq<Scaffold>> {
    if sortOption == "SLT" then
      Some(Arrange(OfSex(scaffolds, true), direction) + Arrange(OfSex(scaffolds, false), direction))
    else if sortOption == "SLB" then
      Some(Arrange(OfSex(scaffolds, false), direction) + Arrange(OfSex(scaffolds, true), direction))
    else if sortOption == "SL" then
      Some(StableSortByLength(scaffolds, Ascending))
    else None
  }

  lemma OfSexCons(x: Scaffold, rest: seq<Scaffold>, sex: bool)
    ensures OfSex([x] + rest, sex) == (if x.isSex == sex then [x] else []) + OfSex(rest, sex)
  {
    assert ([x] + rest)[1..] == rest;
  }

  lemma {:induction false} OfSexAppend(a: seq<Scaffold>, b: seq<Scaffold>, sex: bool)
    ensures OfSex(a + b, sex) == OfSex(a, sex) + OfSex(b, sex)
  {
    if a == [] {
      assert a + b == b;
    } else {
      OfSexAppend(a[1..], b, sex);
      assert a + b == [a[0]] + (a[1..] + b);
      assert a == [a[0]] + a[1..];
      OfSexCons(a[0], a[1..] + b, sex);
      OfSexCons(a[0], a[1..], sex);
    }
  }

  lemma {:induction false} OfSexUniform(s: seq<Scaffold>, sex: bool)
    requires forall x :: x in s ==> x.isSex == sex
    ensures OfSex(s, sex) == s
    ensures OfSex(s, !sex) == []
  {
    if s != [] {
      var rest := s[1..];
      assert forall x :: x in rest ==> x in s;
      OfSexUniform(rest, sex);
      assert s[0] in s;
      assert s == [s[0]] + rest;
      OfSexCons(s[0], rest, sex);
      OfSexCons(s[0], rest, !sex);
      assert OfSex(s, sex) == [s[0]] + rest;
      assert OfSex(s, !sex) == [] + [];
    }
  }

  lemma ArrangedPart(s: seq<Scaffold>, direction: string, sex: bool)
    ensures OfSex(Arrange(OfSex(s, sex), direction), sex) == Arrange(OfSex(s, sex), direction)
    ensures OfSex(Arrange(OfSex(s, sex), direction), !sex) == []
  {
    var part := OfSex(s, sex);
    var arranged := Arrange(part, direction);
    ArrangeSpec(part, direction);
    OfSexMembers(s, sex);
    forall x | x in arranged ensures x.isSex == sex {
      assert x in multiset(arranged);
    }
    OfSexUniform(arranged, sex);
  }

  /** "SLT" and "SLB" give the same two parts in the same inner order; "SLT"
      puts the sex part first and "SLB" puts it last. */
  lemma SltSlbSameParts(scaffolds: seq<Scaffold>, direction: string)
    ensures Reorder(scaffolds, "SLT", direction).Some? && Reorder(scaffolds, "SLB", direction).Some?
    ensures var top := Reorder(scaffolds, "SLT", direction).value;
      var bottom := Reorder(scaffolds, "SLB", direction).value;
      && OfSex(top, true) == OfSex(bottom, true) == Arrange(OfSex(scaffolds, true), direction)
      && OfSex(top, false) == OfSex(bottom, false) == Arrange(OfSex(scaffolds, false), direction)
      && top == OfSex(top, true) + OfSex(top, false)
      && bottom == OfSex(bottom, false) + OfSex(bottom, true)
  {
    var sexPart := Arrange(OfSex(scaffolds, true), direction);
    var otherPart := Arrange(OfSex(scaffolds, false), direction);
    ArrangedPart(scaffolds, direction, true);
    ArrangedPart(scaffolds, direction, false);
    OfSexAppend(sexPart, otherPart, true);
    OfSexAppend(sexPart, otherPart, false);
    OfSexAppend(otherPart, sexPart, true);
    OfSexAppend(otherPart, sexPart, false);
  }

  /** "SL" orders all scaffolds by ascending length, stably, and ignores the direction. */
  lemma SlSortsAscending(scaffolds: seq<Scaffold>, direction: string)
    ensures Reorder(scaffolds, "SL", direction) == Reorder(scaffolds, "SL", "ASCENDING")
    ensures Reorder(scaffolds, "SL", direction).Some?
    ensures var order := Reorder(scaffolds, "SL", direction).value;
      && SortedBy(order, Ascending)
      && SameLengthGroups(order, scaffolds)
      && multiset(order) == multiset(scaffolds)
  {
    StableSortPermutation(scaffolds, Ascending);
    StableSortSorted(scaffolds, Ascending);
    StableSortStable(scaffolds, Ascending);
  }

  /** Each supported option gives a rearrangement of the index; the others give none. */
  lemma ReorderPermutation(scaffolds: seq<Scaffold>, sortOption: string, direction: string)
    ensures Reorder(scaffolds, sortOption, direction).Some? <==> sortOption in ["SLT", "SLB", "SL"]
    ensures Reorder(scaffolds, sortOption, direction).Some? ==>
      multiset(Reorder(scaffolds, sortOption, direction).value) == multiset(scaffolds)
  {
    ArrangeSpec(OfSex(scaffolds, true), direction);
    ArrangeSpec(OfSex(scaffolds, false), direction);
    OfSexPermutation(scaffolds);
    StableSortPermutation(scaffolds, Ascending);
  }

  // ---------------------------------------------------------------------------
  // Sorted positions
  // ---------------------------------------------------------------------------

  /** The list after the numbering loop: entry `i` gets sorted position `i`. */
  function WithSortedPositions(s: seq<Scaffold>): seq<Scaffold> {
    seq(|s|, i requires 0 <= i < |s| => s[i].(sortedPosition := i))
  }

  /** The `iter_mut().enumerate()` loop of `sort_fasta_main`. */
  method AssignSortedPositions(a: array<Scaffold>)
    modifies a
    ensures a[..] == WithSortedPositions(old(a[..]))
  {
    for i := 0 to a.Length
      invariant forall k :: 0 <= k < i ==> a[k] == old(a[k]).(sortedPosition := k)
      invariant forall k :: i <= k < a.Length ==> a[k] == old(a[k])
    {
      a[i] := a[i].(sortedPosition := i);
    }
  }

  ghost function SortedPositions(s: seq<Scaffold>): set<int> {
    set x | x in s :: x.sortedPosition
  }

  /** After numbering, the sorted positions are 0 .. n-1, one per entry, and
      the list is otherwise unchanged: same length, same order, same fields. */
  lemma SortedPositionsExact(s: seq<Scaffold>)
    ensures |WithSortedPositions(s)| == |s|
    ensures forall i :: 0 <= i < |s| ==>
      WithSortedPositions(s)[i].sortedPosition == i
      && WithSortedPositions(s)[i].(sortedPosition := s[i].sortedPosition) == s[i]
    ensures forall p :: p in SortedPositions(WithSortedPositions(s)) <==> 0 <= p < |s|
  {
    var w := WithSortedPositions(s);
    forall p | 0 <= p < |s| ensures p in SortedPositions(w) {
      assert w[p] in w;
    }
  }

  // ---------------------------------------------------------------------------
  // FASTA writer
  // ---------------------------------------------------------------------------

  function Concat(parts: seq<string>): string {
    if parts == [] then "" else parts[0] + Concat(parts[1..])
  }

  /** `chunks(line_length)`: consecutive pieces of the sequence that together
      are the sequence; none at all for an empty one. */
  function Chunks(s: string, lineLength: nat): (r: seq<string>)
    requires lineLength >= 1
    ensures Concat(r) == s
    ensures r == [] <==> s == []
    decreases |s|
  {
    if s == [] then []
    else if |s| <= lineLength then [s]
    else
      var rest := Chunks(s[lineLength..], lineLength);
      assert s == s[..lineLength] + s[lineLength..];
      [s[..lineLength]] + rest
  }

  /** Every chunk but the last has exactly `lineLength` characters; the last
      is non-empty and no longer. */
  lemma {:induction false} ChunksShape(s: string, lineLength: nat)
    requires lineLength >= 1
    ensures forall k :: 0 <= k < |Chunks(s, lineLength)| ==> 1 <= |Chunks(s, lineLength)[k]| <= lineLength
    ensures forall k :: 0 <= k < |Chunks(s, lineLength)| - 1 ==> |Chunks(s, lineLength)[k]| == lineLength
    decreases |s|
  {
    if |s| > lineLength {
      var tail := s[lineLength..];
      ChunksShape(tail, lineLength);
      var r := Chunks(s, lineLength);
      var rest := Chunks(tail, lineLength);
      assert r == [s[..lineLength]] + rest;
      assert |r[0]| == lineLength;
      assert rest != [];
      forall k | 1 <= k < |r| ensures r[k] == rest[k - 1] && 1 <= |r[k]| <= lineLength
        && (k < |r| - 1 ==> |r[k]| == lineLength)
      {
        var j := k - 1;
        assert 0 <= j < |rest|;
        assert 1 <= |rest[j]| <= lineLength;
        assert j < |rest| - 1 ==> |rest[j]| == lineLength;
      }
    }
  }

  /** What the writer emits for one scaffold: its header and its wrapped
      sequence when the map has its id, nothing otherwise. */
  function FastaBlock(scaff: Scaffold, fastaMap: map<string, string>, lineLength: nat): seq<string>
    requires lineLength >= 1
  {
    if scaff.id in fastaMap then [">" + scaff.id] + Chunks(fastaMap[scaff.id], lineLength) else []
  }

  /** The lines of the output FASTA, one block per scaffold in list order. */
  function FastaLines(scaffolds: seq<Scaffold>, fastaMap: map<string, string>, lineLength: nat): seq<string>
    requires lineLength >= 1
  {
    if scaffolds == [] then []
    else FastaBlock(scaffolds[0], fastaMap, lineLength) + FastaLines(scaffolds[1..], fastaMap, lineLength)
  }

  /** The ids the writer warns about, in list order. */
  function MissingIds(scaffolds: seq<Scaffold>, fastaMap: map<string, string>): seq<string> {
    if scaffolds == [] then []
    else (if scaffolds[0].id in fastaMap then [] else [scaffolds[0].id]) + MissingIds(scaffolds[1..], fastaMap)
  }

  /** The inner loop of `write_ordered_fasta`: one line per chunk of `sequence`. */
  method WriteSequence(lines: seq<string>, sequence: string, lineLength: nat) returns (out: seq<string>)
    requires lineLength >= 1
    ensures out == lines + Chunks(sequence, lineLength)
  {
    out := lines;
    var start := 0;
    while start < |sequence|
      invariant start <= |sequence|
      invariant out + Chunks(sequence[start..], lineLength) == lines + Chunks(sequence, lineLength)
    {
      var end := if start + lineLength <= |sequence| then start + lineLength else |sequence|;
      ChunksStep(sequence, start, lineLength);
      out := out + [sequence[start..end]];
      start := end;
    }
    assert sequence[start..] == [];
  }

  lemma WriterStep(scaffolds: seq<Scaffold>, i: nat, fastaMap: map<string, string>, lineLength: nat)
    requires lineLength >= 1 && i < |scaffolds|
    ensures FastaLines(scaffolds[i..], fastaMap, lineLength)
      == FastaBlock(scaffolds[i], fastaMap, lineLength) + FastaLines(scaffolds[i + 1..], fastaMap, lineLength)
    ensures MissingIds(scaffolds[i..], fastaMap)
      == (if scaffolds[i].id in fastaMap then [] else [scaffolds[i].id]) + MissingIds(scaffolds[i + 1..], fastaMap)
  {
    assert scaffolds[i..][1..] == scaffolds[i + 1..];
  }

  /** The body of the writer loop for one scaffold: its block when the map has
      its id, a warning otherwise. */
  method WriteScaffold(lines: seq<string>, skipped: seq<string>, scaff: Scaffold,
                       fastaMap: map<string, string>, lineLength: nat)
    returns (lines': seq<string>, skipped': seq<string>)
    requires lineLength >= 1
    ensures lines' == lines + FastaBlock(scaff, fastaMap, lineLength)
    ensures skipped' == skipped + (if scaff.id in fastaMap then [] else [scaff.id])
  {
    lines', skipped' := lines, skipped;
    if scaff.id in fastaMap {
      lines' := lines' + [">" + scaff.id];
      lines' := WriteSequence(lines', fastaMap[scaff.id], lineLength);
    } else {
      skipped' := skipped' + [scaff.id];
    }
  }

  /** `write_ordered_fasta`, with the file left out: the lines it writes and
      the ids it skips with a warning. */
  method WriteOrderedFasta(scaffolds: seq<Scaffold>, fastaMap: map<string, string>, lineLength: nat)
    returns (lines: seq<string>, skipped: seq<string>)
    requires lineLength >= 1
    ensures lines == FastaLines(scaffolds, fastaMap, lineLength)
    ensures skipped == MissingIds(scaffolds, fastaMap)
  {
    lines, skipped := [], [];
    assert scaffolds[0..] == scaffolds;
    for i := 0 to |scaffolds|
      invariant lines + FastaLines(scaffolds[i..], fastaMap, lineLength) == FastaLines(scaffolds, fastaMap, lineLength)
      invariant skipped + MissingIds(scaffolds[i..], fastaMap) == MissingIds(scaffolds, fastaMap)
    {
      WriterStep(scaffolds, i, fastaMap, lineLength);
      ghost var before, skippedBefore := lines, skipped;
      lines, skipped := WriteScaffold(lines, skipped, scaffolds[i], fastaMap, lineLength);
      Assoc(before, FastaBlock(scaffolds[i], fastaMap, lineLength),
        FastaLines(scaffolds[i + 1..], fastaMap, lineLength));
      Assoc(skippedBefore, if scaffolds[i].id in fastaMap then [] else [scaffolds[i].id],
        MissingIds(scaffolds[i + 1..], fastaMap));
    }
    assert scaffolds[|scaffolds|..] == [];
  }

  /** One turn of the chunk loop: the next line is the text from `start` up to
      `lineLength` characters further or the end, and the rest follows it. */
  lemma ChunksStep(s: string, start: nat, lineLength: nat)
    requires lineLength >= 1 && start < |s|
    ensures var end := if start + lineLength <= |s| then start + lineLength else |s|;
      Chunks(s[start..], lineLength) == [s[start..end]] + Chunks(s[end..], lineLength)
  {
    var rest := s[start..];
    if |rest| > lineLength {
      assert rest[..lineLength] == s[start..start + lineLength];
      assert rest[lineLength..] == s[start + lineLength..];
      assert Chunks(rest, lineLength) == [rest[..lineLength]] + Chunks(rest[lineLength..], lineLength);
    } else {
      assert rest == s[start..|s|];
      assert s[|s|..] == [];
      assert Chunks(rest, lineLength) == [rest];
    }
  }

  // ---------------------------------------------------------------------------
  // Reading the output back
  // ---------------------------------------------------------------------------

  predicate IsHeader(line: string) {
    |line| >= 1 && line[0] == '>'
  }

  /** How many lines at the start of `lines` belong to the sequence of the record above them. */
  function BodyLength(lines: seq<string>): (n: nat)
    ensures n <= |lines|
  {
    if lines == [] || IsHeader(lines[0]) then 0 else 1 + BodyLength(lines[1..])
  }

  /** A FASTA reader for the writer's output: a header line opens a record, the
      lines up to the next header are its sequence. */
  function ReadBack(lines: seq<string>): seq<FastaRecord>
    decreases |lines|
  {
    if lines == [] then []
    else if IsHeader(lines[0]) then
      var n := BodyLength(lines[1..]);
      [FastaRecord(lines[0][1..], Concat(lines[1..1 + n]))] + ReadBack(lines[1 + n..])
    else ReadBack(lines[1..])
  }

  /** The records the writer outputs: one per scaffold whose id is in the map. */
  function PresentRecords(scaffolds: seq<Scaffold>, fastaMap: map<string, string>): seq<FastaRecord> {
    if scaffolds == [] then []
    else
      var x := scaffolds[0];
      (if x.id in fastaMap then [FastaRecord(x.id, fastaMap[x.id])] else [])
      + PresentRecords(scaffolds[1..], fastaMap)
  }

  lemma {:induction false} ConcatMembers(parts: seq<string>, k: nat, c: char)
    requires k < |parts| && c in parts[k]
    ensures c in Concat(parts)
  {
    if k > 0 {
      ConcatMembers(parts[1..], k - 1, c);
    }
  }

  lemma ChunksAreNotHeaders(s: string, lineLength: nat)
    requires lineLength >= 1 && '>' !in s
    ensures forall k :: 0 <= k < |Chunks(s, lineLength)| ==> !IsHeader(Chunks(s, lineLength)[k])
  {
    var r := Chunks(s, lineLength);
    ChunksShape(s, lineLength);
    forall k | 0 <= k < |r| ensures !IsHeader(r[k]) {
      if IsHeader(r[k]) {
        ConcatMembers(r, k, '>');
      }
    }
  }

  lemma {:induction false} BodyLengthOf(body: seq<string>, rest: seq<string>)
    requires forall k :: 0 <= k < |body| ==> !IsHeader(body[k])
    requires rest == [] || IsHeader(rest[0])
    ensures BodyLength(body + rest) == |body|
  {
    if body != [] {
      assert (body + rest)[1..] == body[1..] + rest;
      BodyLengthOf(body[1..], rest);
    }
  }

  lemma {:induction false} FastaLinesStartWithHeader(scaffolds: seq<Scaffold>, fastaMap: map<string, string>, lineLength: nat)
    requires lineLength >= 1
    ensures var lines := FastaLines(scaffolds, fastaMap, lineLength); lines == [] || IsHeader(lines[0])
  {
    if scaffolds != [] && scaffolds[0].id !in fastaMap {
      FastaLinesStartWithHeader(scaffolds[1..], fastaMap, lineLength);
    }
  }

  lemma ReadBackBlock(id: string, body: seq<string>, rest: seq<string>)
    requires forall k :: 0 <= k < |body| ==> !IsHeader(body[k])
    requires rest == [] || IsHeader(rest[0])
    ensures ReadBack([">" + id] + body + rest) == [FastaRecord(id, Concat(body))] + ReadBack(rest)
  {
    var header := ">" + id;
    var lines := [header] + body + rest;
    assert lines[1..] == body + rest;
    BodyLengthOf(body, rest);
    assert lines[1..1 + |body|] == body;
    assert lines[1 + |body|..] == rest;
    assert header[1..] == id;
  }

  /** Reading the written FASTA back gives, in list order, one record per
      scaffold found in the map, with its id and its whole sequence (for
      sequences without '>', which would otherwise read as headers). */
  lemma {:induction false} WriterRoundTrip(scaffolds: seq<Scaffold>, fastaMap: map<string, string>, lineLength: nat)
    requires lineLength >= 1
    requires forall id :: id in fastaMap ==> '>' !in fastaMap[id]
    ensures ReadBack(FastaLines(scaffolds, fastaMap, lineLength)) == PresentRecords(scaffolds, fastaMap)
  {
    if scaffolds != [] {
      var x := scaffolds[0];
      var rest := FastaLines(scaffolds[1..], fastaMap, lineLength);
      WriterRoundTrip(scaffolds[1..], fastaMap, lineLength);
      if x.id in fastaMap {
        var body := Chunks(fastaMap[x.id], lineLength);
        assert FastaLines(scaffolds, fastaMap, lineLength) == [">" + x.id] + body + rest;
        ChunksAreNotHeaders(fastaMap[x.id], lineLength);
        FastaLinesStartWithHeader(scaffolds[1..], fastaMap, lineLength);
        ReadBackBlock(x.id, body, rest);
      } else {
        assert FastaLines(scaffolds, fastaMap, lineLength) == rest;
        assert PresentRecords(scaffolds, fastaMap) == PresentRecords(scaffolds[1..], fastaMap);
      }
    }
  }

  // ---------------------------------------------------------------------------
  // The whole command
  // ---------------------------------------------------------------------------

  /** What one run produces: the numbered order, the change log, the FASTA
      lines and the skipped ids; or the rejection of an unsupported option. */
  datatype RunOutcome =
    | Completed(order: seq<Scaffold>, log: string, fasta: seq<string>, skipped: seq<string>)
    | UnsupportedMode(sortOption: string)

  /** The `match sort_option` of `sort_fasta_main`: `None` where the code reaches `unreachable!`. */
  method OrderBy(scaffolds: seq<Scaffold>, sortOption: string, direction: string)
    returns (resultingOrder: Option<seq<Scaffold>>)
    ensures resultingOrder == Reorder(scaffolds, sortOption, direction)
  {
    if sortOption == "SLT" {
      var sex, notSex := SexBasedSorting(scaffolds, direction);
      resultingOrder := Some(sex + notSex);
    } else if sortOption == "SLB" {
      var sex, notSex := SexBasedSorting(scaffolds, direction);
      resultingOrder := Some(notSex + sex);
    } else if sortOption == "SL" {
      var all := new Scaffold[|scaffolds|](k requires 0 <= k < |scaffolds| => scaffolds[k]);
      assert all[..] == scaffolds;
      SortByLength(all, Ascending);
      resultingOrder := Some(all[..]);
    } else {
      resultingOrder := None;
    }
  }

  /** `sort_fasta_main` on already-parsed records, with the files left out. */
  method SortFastaMain(records: seq<FastaRecord>, lineLength: nat, sortOption: string, direction: string)
    returns (outcome: RunOutcome)
    requires lineLength >= 1
    ensures Reorder(ScaffoldIndex(records), sortOption, direction).None? ==>
      outcome == UnsupportedMode(sortOption)
    ensures Reorder(ScaffoldIndex(records), sortOption, direction).Some? ==>
      var order := WithSortedPositions(Reorder(ScaffoldIndex(records), sortOption, direction).value);
      var fastaMap := SequenceMap(records);
      outcome == Completed(order, LogText(order),
        FastaLines(order, fastaMap, lineLength), MissingIds(order, fastaMap))
  {
    var scaffolds := ReadFasta(records);
    var arranged := OrderBy(scaffolds, sortOption, direction);
    if arranged.None? {
      return UnsupportedMode(sortOption);
    }
    var resultingOrder := arranged.value;
    var numbered := new Scaffold[|resultingOrder|](k requires 0 <= k < |resultingOrder| => resultingOrder[k]);
    assert numbered[..] == resultingOrder;
    AssignSortedPositions(numbered);
    resultingOrder := numbered[..];
    var log := LogScaffolds(resultingOrder);
    var fastaMap := ReadFastaToMap(records);
    var lines, skipped := WriteOrderedFasta(resultingOrder, fastaMap, lineLength);
    outcome := Completed(resultingOrder, log, lines, skipped);
  }

  // ---------------------------------------------------------------------------
  // What a completed run keeps
  // ---------------------------------------------------------------------------

  /** `f` applied to every element of `s`, in order. */
  function MapSeq<A, B>(f: A -> B, s: seq<A>): seq<B> {
    seq(|s|, i requires 0 <= i < |s| => f(s[i]))
  }

  function IdOf(x: Scaffold): string {
    x.id
  }

  function Ids(s: seq<Scaffold>): seq<string> {
    seq(|s|, i requires 0 <= i < |s| => s[i].id)
  }

  function RecordIdList(records: seq<FastaRecord>): seq<string> {
    seq(|records|, i requires 0 <= i < |records| => records[i].id)
  }

  lemma RemoveOne<A, B>(f: A -> B, t: seq<A>, j: nat)
    requires j < |t|
    ensures multiset(t[..j] + t[j + 1..]) == multiset(t) - multiset{t[j]}
    ensures multiset(MapSeq(f, t[..j] + t[j + 1..])) == multiset(MapSeq(f, t)) - multiset{f(t[j])}
  {
    assert t == t[..j] + [t[j]] + t[j + 1..];
    assert MapSeq(f, t) == MapSeq(f, t[..j]) + [f(t[j])] + MapSeq(f, t[j + 1..]);
    assert MapSeq(f, t[..j] + t[j + 1..]) == MapSeq(f, t[..j]) + MapSeq(f, t[j + 1..]);
  }

  lemma DropFirst<A, B>(f: A -> B, s: seq<A>, t: seq<A>, j: nat)
    requires s != [] && j < |t| && t[j] == s[0] && multiset(s) == multiset(t)
    ensures multiset(s[1..]) == multiset(t[..j] + t[j + 1..])
  {
    RemoveOne(f, t, j);
    assert s == [s[0]] + s[1..];
  }

  lemma MapStep<A, B>(f: A -> B, s: seq<A>, t: seq<A>, j: nat)
    requires s != [] && j < |t| && t[j] == s[0]
    requires multiset(MapSeq(f, s[1..])) == multiset(MapSeq(f, t[..j] + t[j + 1..]))
    ensures multiset(MapSeq(f, s)) == multiset(MapSeq(f, t))
  {
    RemoveOne(f, t, j);
    assert MapSeq(f, s) == [f(s[0])] + MapSeq(f, s[1..]);
    assert MapSeq(f, t)[j] == f(s[0]);
  }

  /** Rearranging a list rearranges its image under `f` alike. */
  lemma {:induction false} MapOfPermutation<A, B>(f: A -> B, s: seq<A>, t: seq<A>)
    requires multiset(s) == multiset(t)
    ensures multiset(MapSeq(f, s)) == multiset(MapSeq(f, t))
    decreases |s|
  {
    if s == [] {
      assert |t| == |multiset(t)|;
    } else {
      assert s[0] in multiset(t);
      var j :| 0 <= j < |t| && t[j] == s[0];
      DropFirst(f, s, t, j);
      MapOfPermutation(f, s[1..], t[..j] + t[j + 1..]);
      MapStep(f, s, t, j);
    }
  }

  /** Rearranging scaffolds rearranges their ids alike. */
  lemma IdsOfPermutation(s: seq<Scaffold>, t: seq<Scaffold>)
    requires multiset(s) == multiset(t)
    ensures multiset(Ids(s)) == multiset(Ids(t))
  {
    MapOfPermutation(IdOf, s, t);
    assert Ids(s) == MapSeq(IdOf, s);
    assert Ids(t) == MapSeq(IdOf, t);
  }

  lemma {:induction false} NoneMissing(scaffolds: seq<Scaffold>, fastaMap: map<string, string>)
    requires forall k :: 0 <= k < |scaffolds| ==> scaffolds[k].id in fastaMap
    ensures MissingIds(scaffolds, fastaMap) == []
  {
    if scaffolds != [] {
      NoneMissing(scaffolds[1..], fastaMap);
    }
  }

  lemma {:induction false} AllPresent(scaffolds: seq<Scaffold>, fastaMap: map<string, string>)
    requires forall k :: 0 <= k < |scaffolds| ==> scaffolds[k].id in fastaMap
    ensures |PresentRecords(scaffolds, fastaMap)| == |scaffolds|
    ensures forall k :: 0 <= k < |scaffolds| ==>
      PresentRecords(scaffolds, fastaMap)[k] == FastaRecord(scaffolds[k].id, fastaMap[scaffolds[k].id])
  {
    if scaffolds != [] {
      AllPresent(scaffolds[1..], fastaMap);
    }
  }

  /** A completed run outputs every input id exactly as often as the input
      holds it, numbers the output 0 .. n-1 in output order, and skips nothing. */
  lemma PipelineKeepsEveryRecord(records: seq<FastaRecord>, sortOption: string, direction: string)
    requires Reorder(ScaffoldIndex(records), sortOption, direction).Some?
    ensures var order := WithSortedPositions(Reorder(ScaffoldIndex(records), sortOption, direction).value);
      && |order| == |records|
      && multiset(Ids(order)) == multiset(RecordIdList(records))
      && (forall i :: 0 <= i < |order| ==> order[i].sortedPosition == i)
      && MissingIds(order, SequenceMap(records)) == []
  {
    var index := ScaffoldIndex(records);
    var arranged := Reorder(index, sortOption, direction).value;
    var order := WithSortedPositions(arranged);
    ReorderPermutation(index, sortOption, direction);
    assert |arranged| == |multiset(arranged)| == |multiset(index)| == |index|;
    IdsOfPermutation(arranged, index);
    IdsOfNumbered(arranged);
    IdsOfIndex(records);
    IdsInMap(order, records);
    NoneMissing(order, SequenceMap(records));
  }

  lemma IdsOfNumbered(s: seq<Scaffold>)
    ensures Ids(WithSortedPositions(s)) == Ids(s)
  {
  }

  lemma IdsOfIndex(records: seq<FastaRecord>)
    ensures Ids(ScaffoldIndex(records)) == RecordIdList(records)
  {
  }

  lemma IdsInMap(scaffolds: seq<Scaffold>, records: seq<FastaRecord>)
    requires multiset(Ids(scaffolds)) == multiset(RecordIdList(records))
    ensures forall k :: 0 <= k < |scaffolds| ==> scaffolds[k].id in SequenceMap(records)
  {
    SequenceMapKeys(records);
    forall k | 0 <= k < |scaffolds| ensures scaffolds[k].id in SequenceMap(records) {
      assert scaffolds[k].id == Ids(scaffolds)[k];
      assert scaffolds[k].id in multiset(RecordIdList(records));
      var j :| 0 <= j < |records| && RecordIdList(records)[j] == scaffolds[k].id;
      assert records[j] in records;
    }
  }

  lemma {:induction false} SequenceMapValues(records: seq<FastaRecord>)
    requires forall k :: 0 <= k < |records| ==> '>' !in records[k].sequence
    ensures forall id :: id in SequenceMap(records) ==> '>' !in SequenceMap(records)[id]
  {
    if records != [] {
      SequenceMapValues(records[..|records| - 1]);
    }
  }

  /** Reading a completed run's FASTA back gives one record per output entry,
      in output order, with the entry's id and the sequence the map holds for
      it (for input sequences without '>'). */
  lemma PipelineFastaReadsBack(records: seq<FastaRecord>, sortOption: string, direction: string, lineLength: nat)
    requires lineLength >= 1
    requires Reorder(ScaffoldIndex(records), sortOption, direction).Some?
    requires forall k :: 0 <= k < |records| ==> '>' !in records[k].sequence
    ensures var order := WithSortedPositions(Reorder(ScaffoldIndex(records), sortOption, direction).value);
      var fastaMap := SequenceMap(records);
      var back := ReadBack(FastaLines(order, fastaMap, lineLength));
      && |back| == |order|
      && forall i :: 0 <= i < |order| ==>
        back[i].id == order[i].id && back[i].id in fastaMap && back[i].sequence == fastaMap[back[i].id]
  {
    var order := WithSortedPositions(Reorder(ScaffoldIndex(records), sortOption, direction).value);
    var fastaMap := SequenceMap(records);
    PipelineKeepsEveryRecord(records, sortOption, direction);
    SequenceMapValues(records);
    WriterRoundTrip(order, fastaMap, lineLength);
    MissingMeansAbsent(order, fastaMap);
    AllPresent(order, fastaMap);
  }

  lemma {:induction false} MissingMeansAbsent(scaffolds: seq<Scaffold>, fastaMap: map<string, string>)
    ensures forall k :: 0 <= k < |scaffolds| && scaffolds[k].id !in fastaMap ==>
      scaffolds[k].id in MissingIds(scaffolds, fastaMap)
  {
    if scaffolds != [] {
      MissingMeansAbsent(scaffolds[1..], fastaMap);
      forall k | 1 <= k < |scaffolds| && scaffolds[k].id !in fastaMap
        ensures scaffolds[k].id in MissingIds(scaffolds, fastaMap)
      {
        assert scaffolds[1..][k - 1] == scaffolds[k];
      }
    }
  }

  /** The record the writer produces for each id, given the sequence map. */
  function RecordsOf(ids: seq<string>, fastaMap: map<string, string>): seq<FastaRecord> {
    seq(|ids|, i requires 0 <= i < |ids| =>
      FastaRecord(ids[i], if ids[i] in fastaMap then fastaMap[ids[i]] else ""))
  }

  lemma RecordsOfPermutation(a: seq<string>, b: seq<string>, fastaMap: map<string, string>)
    requires multiset(a) == multiset(b)
    ensures multiset(RecordsOf(a, fastaMap)) == multiset(RecordsOf(b, fastaMap))
  {
    var g := (id: string) => FastaRecord(id, if id in fastaMap then fastaMap[id] else "");
    MapOfPermutation(g, a, b);
    assert RecordsOf(a, fastaMap) == MapSeq(g, a);
    assert RecordsOf(b, fastaMap) == MapSeq(g, b);
  }

  /** With distinct ids, looking each record's id up in the map gives the record back. */
  lemma DistinctRecordsOf(records: seq<FastaRecord>)
    requires forall i, j :: 0 <= i < j < |records| ==> records[i].id != records[j].id
    ensures RecordsOf(RecordIdList(records), SequenceMap(records)) == records
  {
    forall j | 0 <= j < |records|
      ensures RecordsOf(RecordIdList(records), SequenceMap(records))[j] == records[j]
    {
      assert LastOccurrence(records, j);
      SequenceMapLastWins(records, j);
    }
  }

  /** With distinct ids, the FASTA of a completed run holds exactly the input
      records, each once, in the new order. (With a repeated id every entry of
      that id is written with the sequence of its last record.) */
  lemma PipelineRestoresRecords(records: seq<FastaRecord>, sortOption: string, direction: string, lineLength: nat)
    requires lineLength >= 1
    requires Reorder(ScaffoldIndex(records), sortOption, direction).Some?
    requires forall k :: 0 <= k < |records| ==> '>' !in records[k].sequence
    requires forall i, j :: 0 <= i < j < |records| ==> records[i].id != records[j].id
    ensures var order := WithSortedPositions(Reorder(ScaffoldIndex(records), sortOption, direction).value);
      multiset(ReadBack(FastaLines(order, SequenceMap(records), lineLength))) == multiset(records)
  {
    var order := WithSortedPositions(Reorder(ScaffoldIndex(records), sortOption, direction).value);
    var m := SequenceMap(records);
    var back := ReadBack(FastaLines(order, m, lineLength));
    PipelineKeepsEveryRecord(records, sortOption, direction);
    PipelineFastaReadsBack(records, sortOption, direction, lineLength);
    assert back == RecordsOf(Ids(order), m);
    RecordsOfPermutation(Ids(order), RecordIdList(records), m);
    DistinctRecordsOf(records);
  }

  /** When no input id contains a newline, the change log of a completed run
      reads back as the run's numbered order. */
  lemma PipelineLogReadsBack(records: seq<FastaRecord>, sortOption: string, direction: string)
    requires Reorder(ScaffoldIndex(records), sortOption, direction).Some?
    requires forall k :: 0 <= k < |records| ==> '\n' !in records[k].id
    ensures var order := WithSortedPositions(Reorder(ScaffoldIndex(records), sortOption, direction).value);
      ParseLog(LogText(order)) == Some(order)
  {
    var index := ScaffoldIndex(records);
    var arranged := Reorder(index, sortOption, direction).value;
    var order := WithSortedPositions(arranged);
    ReorderPermutation(index, sortOption, direction);
    SortedPositionsExact(arranged);
    forall x | x in index ensures NewlineFree(x) {
      var j :| 0 <= j < |index| && index[j] == x;
      IdSuffixNoNewline(records[j].id);
    }
    forall x | x in order ensures NewlineFree(x) {
      var i :| 0 <= i < |order| && order[i] == x;
      assert order[i].(sortedPosition := arranged[i].sortedPosition) == arranged[i];
      assert arranged[i] in multiset(index);
    }
    LogRoundTrip(order);
  }
}
