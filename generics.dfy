/** The scaffold record, the classifier that derives a scaffold's suffix and
    sex flag from its identifier, the two read passes over the parsed FASTA
    records (the ordered index and the id-to-sequence map), and the change-log
    record layout (src/generics/mod.rs). */
module Generics {
  import opened Text

  /** One record as the FASTA parser hands it over: identifier and sequence. */
  datatype FastaRecord = FastaRecord(id: string, sequence: string)

  /** The index entry kept for every record of the input file. */
  datatype Scaffold = Scaffold(
    id: string,
    idSuffix: string,
    isSex: bool,
    scaffLength: nat,
    originalPosition: nat,
    sortedPosition: nat)

  // ---------------------------------------------------------------------------
  // Classifier
  // ---------------------------------------------------------------------------

  /** The substrings `contains_sex_scaff` looks for, in the order it tries them. */
  const SexMarkers: seq<string> := ["X", "x", "Y", "y", "Z", "z", "W", "w"]

  predicate IsSexMarker(c: char) {
    c == 'X' || c == 'x' || c == 'Y' || c == 'y' || c == 'Z' || c == 'z' || c == 'W' || c == 'w'
  }

  predicate OccursAt(s: string, pat: string, i: nat) {
    i + |pat| <= |s| && s[i..i + |pat|] == pat
  }

  lemma OccursShift(s: string, pat: string)
    requires s != []
    ensures forall i: nat :: OccursAt(s[1..], pat, i) <==> OccursAt(s, pat, i + 1)
  {
    forall i: nat ensures OccursAt(s[1..], pat, i) <==> OccursAt(s, pat, i + 1) {
      if i + 1 + |pat| <= |s| {
        assert s[1..][i..i + |pat|] == s[i + 1..i + 1 + |pat|];
      }
    }
  }

  /** `str::contains`: whether `pat` occurs somewhere in `s`. */
  function Contains(s: string, pat: string): (r: bool)
    ensures r <==> exists i: nat :: OccursAt(s, pat, i)
    decreases |s|
  {
    if |s| < |pat| then false
    else if s[..|pat|] == pat then assert OccursAt(s, pat, 0); true
    else
      OccursShift(s, pat);
      assert !OccursAt(s, pat, 0);
      assert forall i: nat :: OccursAt(s, pat, i) ==> i == 0 || OccursAt(s[1..], pat, i - 1);
      Contains(s[1..], pat)
  }

  lemma ContainsChar(s: string, c: char)
    ensures Contains(s, [c]) <==> c in s
  {
    if c in s {
      var k :| 0 <= k < |s| && s[k] == c;
      assert OccursAt(s, [c], k);
    }
    forall i: nat | OccursAt(s, [c], i) ensures s[i] == c {
      assert s[i..i + 1][0] == s[i];
    }
  }

  /** `pats.iter().any(|p| s.contains(p))`. */
  function ContainsAny(s: string, pats: seq<string>): (r: bool)
    ensures r <==> exists p :: p in pats && Contains(s, p)
  {
    if pats == [] then false
    else if Contains(s, pats[0]) then assert pats[0] in pats; true
    else
      assert forall p :: p in pats ==> p == pats[0] || p in pats[1..];
      assert forall p :: p in pats[1..] ==> p in pats;
      ContainsAny(s, pats[1..])
  }

  lemma ContainsAnySexMarker(s: string)
    ensures ContainsAny(s, SexMarkers) <==> exists k :: 0 <= k < |s| && IsSexMarker(s[k])
  {
    forall p | p in SexMarkers
      ensures |p| == 1 && IsSexMarker(p[0]) && p == [p[0]]
    {
    }
    forall p | p in SexMarkers && Contains(s, p)
      ensures exists k :: 0 <= k < |s| && IsSexMarker(s[k])
    {
      ContainsChar(s, p[0]);
    }
    forall k | 0 <= k < |s| && IsSexMarker(s[k])
      ensures ContainsAny(s, SexMarkers)
    {
      ContainsChar(s, s[k]);
      assert [s[k]] in SexMarkers;
    }
  }

  /** `contains_sex_scaff`: a suffix marks a sex scaffold exactly when one of
      its characters is X, Y, Z or W in either case. */
  function ContainsSexScaff(chromosomeId: string): (r: bool)
    ensures r <==> exists k :: 0 <= k < |chromosomeId| && IsSexMarker(chromosomeId[k])
  {
    ContainsAnySexMarker(chromosomeId);
    ContainsAny(chromosomeId, SexMarkers)
  }

  /** The suffix `read_fasta` stores: the text after the last `_` of the
      identifier (possibly empty), or "NA" when there is no `_` at all. */
  function IdSuffix(scaffId: string): (r: string)
    ensures '_' !in scaffId ==> r == "NA"
    ensures '_' in scaffId ==>
      && '_' !in r
      && |r| < |scaffId|
      && scaffId[|scaffId| - |r| - 1] == '_'
      && scaffId[|scaffId| - |r|..] == r
  {
    if '_' in scaffId then
      var pieces := Split(scaffId, '_');
      SplitLast(scaffId, '_');
      pieces[|pieces| - 1]
    else "NA"
  }

  /** Whatever comes before the last `_`, the suffix is what follows it. */
  lemma IdSuffixAfterLastUnderscore(head: string, tail: string)
    requires '_' !in tail
    ensures IdSuffix(head + "_" + tail) == tail
  {
    var id := head + "_" + tail;
    assert id[|head|] == '_';
    assert id[|id| - |tail|..] == tail;
  }

  /** A newline-free identifier has a newline-free suffix. */
  lemma IdSuffixNoNewline(scaffId: string)
    requires '\n' !in scaffId
    ensures '\n' !in IdSuffix(scaffId)
  {
    var r := IdSuffix(scaffId);
    if '_' in scaffId {
      forall k | 0 <= k < |r| ensures r[k] != '\n' {
        assert r[k] == scaffId[|scaffId| - |r| + k];
      }
    }
  }

  // ---------------------------------------------------------------------------
  // First read pass: the scaffold index
  // ---------------------------------------------------------------------------

  /** The index entry `read_fasta` pushes for `rec` found at `position`. */
  function MakeScaffold(rec: FastaRecord, position: nat): Scaffold {
    var suffix := IdSuffix(rec.id);
    Scaffold(rec.id, suffix, ContainsSexScaff(suffix), |rec.sequence|, position, 0)
  }

  /** The index of a whole file: one entry per record, in file order. */
  function ScaffoldIndex(records: seq<FastaRecord>): seq<Scaffold> {
    seq(|records|, i requires 0 <= i < |records| => MakeScaffold(records[i], i))
  }

  /** `read_fasta`: walks the records, numbering them from 0. */
  method ReadFasta(records: seq<FastaRecord>) returns (scaffolds: seq<Scaffold>)
    ensures scaffolds == ScaffoldIndex(records)
  {
    scaffolds := [];
    var position := 0;
    while position < |records|
      invariant position <= |records| && |scaffolds| == position
      invariant forall k :: 0 <= k < position ==> scaffolds[k] == MakeScaffold(records[k], k)
    {
      var rec := records[position];
      var scaffId := rec.id;
      var scaffSuffix := IdSuffix(scaffId);
      scaffolds := scaffolds + [Scaffold(
        scaffId, scaffSuffix, ContainsSexScaff(scaffSuffix), |rec.sequence|, position, 0)];
      position := position + 1;
    }
    assert scaffolds == ScaffoldIndex(records);
  }

  ghost function OriginalPositions(scaffolds: seq<Scaffold>): set<int> {
    set x | x in scaffolds :: x.originalPosition
  }

  /** The original positions of the index are 0 .. n-1, each held by exactly one entry. */
  lemma OriginalPositionsExact(records: seq<FastaRecord>)
    ensures forall p :: p in OriginalPositions(ScaffoldIndex(records)) <==> 0 <= p < |records|
    ensures forall i, j :: 0 <= i < j < |records| ==>
      ScaffoldIndex(records)[i].originalPosition != ScaffoldIndex(records)[j].originalPosition
  {
    var idx := ScaffoldIndex(records);
    forall i | 0 <= i < |records| ensures i in OriginalPositions(idx) {
      assert idx[i] in idx;
    }
  }

  /** Each index entry carries its record's id, length and classification. */
  lemma IndexEntry(records: seq<FastaRecord>, i: nat)
    requires i < |records|
    ensures var x := ScaffoldIndex(records)[i];
      && x.id == records[i].id
      && x.idSuffix == IdSuffix(records[i].id)
      && (x.isSex <==> exists k :: 0 <= k < |x.idSuffix| && IsSexMarker(x.idSuffix[k]))
      && x.scaffLength == |records[i].sequence|
      && x.originalPosition == i
      && x.sortedPosition == 0
  {
  }

  // ---------------------------------------------------------------------------
  // Second read pass: the sequence map
  // ---------------------------------------------------------------------------

  /** The map `read_fasta_to_map` builds: records inserted in file order, a later
      record overwriting an earlier one with the same id. */
  function SequenceMap(records: seq<FastaRecord>): map<string, string> {
    if records == [] then map[]
    else
      var last := records[|records| - 1];
      SequenceMap(records[..|records| - 1])[last.id := last.sequence]
  }

  /** `read_fasta_to_map`. */
  method ReadFastaToMap(records: seq<FastaRecord>) returns (m: map<string, string>)
    ensures m == SequenceMap(records)
  {
    m := map[];
    var i := 0;
    while i < |records|
      invariant i <= |records|
      invariant m == SequenceMap(records[..i])
    {
      var rec := records[i];
      assert records[..i + 1][..i] == records[..i];
      m := m[rec.id := rec.sequence];
      i := i + 1;
    }
    assert records[..i] == records;
  }

  ghost function RecordIds(records: seq<FastaRecord>): set<string> {
    set r | r in records :: r.id
  }

  /** The map's keys are exactly the ids of the records. */
  lemma {:induction false} SequenceMapKeys(records: seq<FastaRecord>)
    ensures SequenceMap(records).Keys == RecordIds(records)
  {
    if records != [] {
      var front := records[..|records| - 1];
      SequenceMapKeys(front);
      assert records == front + [records[|records| - 1]];
    }
  }

  /** Record `i` is the last one in the file with its id. */
  predicate LastOccurrence(records: seq<FastaRecord>, i: int) {
    0 <= i < |records| && forall j :: i < j < |records| ==> records[j].id != records[i].id
  }

  /** For an id given by several records, the last record's sequence wins. */
  lemma {:induction false} SequenceMapLastWins(records: seq<FastaRecord>, i: int)
    requires LastOccurrence(records, i)
    ensures records[i].id in SequenceMap(records)
    ensures SequenceMap(records)[records[i].id] == records[i].sequence
  {
    if i < |records| - 1 {
      var front := records[..|records| - 1];
      assert LastOccurrence(front, i);
      SequenceMapLastWins(front, i);
    }
  }

  // ---------------------------------------------------------------------------
  // Change-log record
  // ---------------------------------------------------------------------------

  /** `Display for Scaffold`: six labelled lines, each ended by a newline. */
  function Format(s: Scaffold): string {
    "ID: " + s.id
    + "\n\t-SUFFIX: " + s.idSuffix
    + "\n\t-IS_SEX: " + BoolToString(s.isSex)
    + "\n\t-SCAFFOLD_LENGTH: " + NatToString(s.scaffLength)
    + "\n\t-ORIGINAL_POSITION: " + NatToString(s.originalPosition)
    + "\n\t-SORTED_POSITION: " + NatToString(s.sortedPosition)
    + "\n"
  }

  /** The lines of a formatted record, ending with the empty text after its last newline. */
  function RecordLines(s: Scaffold): seq<string> {
    [ "ID: " + s.id,
      "\t-SUFFIX: " + s.idSuffix,
      "\t-IS_SEX: " + BoolToString(s.isSex),
      "\t-SCAFFOLD_LENGTH: " + NatToString(s.scaffLength),
      "\t-ORIGINAL_POSITION: " + NatToString(s.originalPosition),
      "\t-SORTED_POSITION: " + NatToString(s.sortedPosition),
      "" ]
  }

  lemma JoinSnoc(parts: seq<string>, x: string, sep: char)
    requires |parts| >= 1
    ensures Join(parts + [x], sep) == Join(parts, sep) + [sep] + x
  {
    assert (parts + [x])[..|parts|] == parts;
  }

  lemma FormatIsJoin(s: Scaffold)
    ensures Format(s) == Join(RecordLines(s), '\n')
  {
    var l := RecordLines(s);
    JoinSeven(l[0], l[1], l[2], l[3], l[4], l[5], l[6], '\n');
    assert l == [l[0], l[1], l[2], l[3], l[4], l[5], l[6]];
    var sex, len, orig, sorted := BoolToString(s.isSex), NatToString(s.scaffLength),
      NatToString(s.originalPosition), NatToString(s.sortedPosition);
    FormatSpelledOut(s.id, s.idSuffix, sex, len, orig, sorted);
  }

  lemma FormatSpelledOut(id: string, suffix: string, sex: string, len: string, orig: string, sorted: string)
    ensures "ID: " + id
    + "\n\t-SUFFIX: " + suffix
    + "\n\t-IS_SEX: " + sex
    + "\n\t-SCAFFOLD_LENGTH: " + len
    + "\n\t-ORIGINAL_POSITION: " + orig
    + "\n\t-SORTED_POSITION: " + sorted
    + "\n"
    == ("ID: " + id) + "\n" + ("\t-SUFFIX: " + suffix) + "\n" + ("\t-IS_SEX: " + sex)
    + "\n" + ("\t-SCAFFOLD_LENGTH: " + len) + "\n" + ("\t-ORIGINAL_POSITION: " + orig)
    + "\n" + ("\t-SORTED_POSITION: " + sorted) + "\n" + ""
  {
    assert "\n\t-SUFFIX: " == "\n" + "\t-SUFFIX: ";
    assert "\n\t-IS_SEX: " == "\n" + "\t-IS_SEX: ";
    assert "\n\t-SCAFFOLD_LENGTH: " == "\n" + "\t-SCAFFOLD_LENGTH: ";
    assert "\n\t-ORIGINAL_POSITION: " == "\n" + "\t-ORIGINAL_POSITION: ";
    assert "\n\t-SORTED_POSITION: " == "\n" + "\t-SORTED_POSITION: ";
  }

  lemma JoinSeven(l0: string, l1: string, l2: string, l3: string, l4: string, l5: string, l6: string, sep: char)
    ensures Join([l0, l1, l2, l3, l4, l5, l6], sep)
      == l0 + [sep] + l1 + [sep] + l2 + [sep] + l3 + [sep] + l4 + [sep] + l5 + [sep] + l6
  {
    JoinSnoc([l0], l1, sep);
    assert [l0] + [l1] == [l0, l1];
    JoinSnoc([l0, l1], l2, sep);
    assert [l0, l1] + [l2] == [l0, l1, l2];
    JoinSnoc([l0, l1, l2], l3, sep);
    assert [l0, l1, l2] + [l3] == [l0, l1, l2, l3];
    JoinSnoc([l0, l1, l2, l3], l4, sep);
    assert [l0, l1, l2, l3] + [l4] == [l0, l1, l2, l3, l4];
    JoinSnoc([l0, l1, l2, l3, l4], l5, sep);
    assert [l0, l1, l2, l3, l4] + [l5] == [l0, l1, l2, l3, l4, l5];
    JoinSnoc([l0, l1, l2, l3, l4, l5], l6, sep);
    assert [l0, l1, l2, l3, l4, l5] + [l6] == [l0, l1, l2, l3, l4, l5, l6];
  }

  function NatField(line: string, tag: string): Option<nat> {
    match StripPrefix(line, tag)
    case Some(text) => ParseDecimal(text)
    case None => None
  }

  function BoolField(line: string, tag: string): Option<bool> {
    match StripPrefix(line, tag)
    case Some(text) => ParseBool(text)
    case None => None
  }

  /** Reads a scaffold back from the six labelled lines of its log record. */
  function ParseFields(lines: seq<string>): Option<Scaffold>
    requires |lines| >= 6
  {
    var id := StripPrefix(lines[0], "ID: ");
    var suffix := StripPrefix(lines[1], "\t-SUFFIX: ");
    var isSex := BoolField(lines[2], "\t-IS_SEX: ");
    var length := NatField(lines[3], "\t-SCAFFOLD_LENGTH: ");
    var original := NatField(lines[4], "\t-ORIGINAL_POSITION: ");
    var sorted := NatField(lines[5], "\t-SORTED_POSITION: ");
    if id.Some? && suffix.Some? && isSex.Some? && length.Some? && original.Some? && sorted.Some?
    then Some(Scaffold(id.value, suffix.value, isSex.value, length.value, original.value, sorted.value))
    else None
  }

  /** Reads one log record back from its text. */
  function ParseRecord(text: string): Option<Scaffold> {
    var lines := Split(text, '\n');
    if |lines| == 7 && lines[6] == "" then ParseFields(lines[..6]) else None
  }

  predicate NewlineFree(s: Scaffold) {
    '\n' !in s.id && '\n' !in s.idSuffix
  }

  lemma DigitsNoNewline(n: nat)
    ensures '\n' !in NatToString(n)
  {
    var t := NatToString(n);
    assert forall k :: 0 <= k < |t| ==> IsDigit(t[k]);
  }

  lemma TaggedNoNewline(tag: string, value: string)
    requires '\n' !in tag && '\n' !in value
    ensures '\n' !in tag + value
  {
  }

  lemma RecordLinesNewlineFree(s: Scaffold)
    requires NewlineFree(s)
    ensures forall k :: 0 <= k < |RecordLines(s)| ==> '\n' !in RecordLines(s)[k]
  {
    DigitsNoNewline(s.scaffLength);
    DigitsNoNewline(s.originalPosition);
    DigitsNoNewline(s.sortedPosition);
    TaggedNoNewline("ID: ", s.id);
    TaggedNoNewline("\t-SUFFIX: ", s.idSuffix);
    TaggedNoNewline("\t-IS_SEX: ", BoolToString(s.isSex));
    TaggedNoNewline("\t-SCAFFOLD_LENGTH: ", NatToString(s.scaffLength));
    TaggedNoNewline("\t-ORIGINAL_POSITION: ", NatToString(s.originalPosition));
    TaggedNoNewline("\t-SORTED_POSITION: ", NatToString(s.sortedPosition));
  }

  lemma ParseFieldsOfRecordLines(s: Scaffold)
    ensures ParseFields(RecordLines(s)[..6]) == Some(s)
  {
    var l := RecordLines(s)[..6];
    assert StripPrefix(l[0], "ID: ") == Some(s.id);
    assert StripPrefix(l[1], "\t-SUFFIX: ") == Some(s.idSuffix);
    assert StripPrefix(l[2], "\t-IS_SEX: ") == Some(BoolToString(s.isSex));
    assert StripPrefix(l[3], "\t-SCAFFOLD_LENGTH: ") == Some(NatToString(s.scaffLength));
    assert StripPrefix(l[4], "\t-ORIGINAL_POSITION: ") == Some(NatToString(s.originalPosition));
    assert StripPrefix(l[5], "\t-SORTED_POSITION: ") == Some(NatToString(s.sortedPosition));
    DecimalRoundTrip(s.scaffLength);
    DecimalRoundTrip(s.originalPosition);
    DecimalRoundTrip(s.sortedPosition);
  }

  /** A log record holds every field of its scaffold, each on its own labelled
      line, so that the record reads back as the same scaffold. */
  lemma FormatRoundTrip(s: Scaffold)
    requires NewlineFree(s)
    ensures ParseRecord(Format(s)) == Some(s)
  {
    FormatIsJoin(s);
    RecordLinesNewlineFree(s);
    JoinSplit(RecordLines(s), '\n');
    ParseFieldsOfRecordLines(s);
  }

  // ---------------------------------------------------------------------------
  // Change log
  // ---------------------------------------------------------------------------

  /** The text `log_scaffolds` writes: every record, in list order, followed by a newline. */
  function LogText(scaffolds: seq<Scaffold>): string {
    if scaffolds == [] then "" else Format(scaffolds[0]) + "\n" + LogText(scaffolds[1..])
  }

  /** `log_scaffolds`, with the file left out: the text it writes. */
  method LogScaffolds(scaffolds: seq<Scaffold>) returns (log: string)
    ensures log == LogText(scaffolds)
  {
    log := "";
    for i := 0 to |scaffolds|
      invariant log + LogText(scaffolds[i..]) == LogText(scaffolds)
    {
      LogTextStep(scaffolds, i);
      var entry := Format(scaffolds[i]) + "\n";
      Assoc(log, entry, LogText(scaffolds[i + 1..]));
      log := log + entry;
    }
  }

  lemma LogTextStep(scaffolds: seq<Scaffold>, i: nat)
    requires i < |scaffolds|
    ensures LogText(scaffolds[i..]) == Format(scaffolds[i]) + "\n" + LogText(scaffolds[i + 1..])
  {
    assert scaffolds[i..][1..] == scaffolds[i + 1..];
  }

  /** Reads a whole change log back: records of seven lines, then one empty line. */
  function ParseLogLines(lines: seq<string>): Option<seq<Scaffold>>
    decreases |lines|
  {
    if lines == [""] then Some([])
    else if |lines| >= 7 && lines[6] == "" then
      match (ParseFields(lines[..6]), ParseLogLines(lines[7..]))
      case (Some(x), Some(rest)) => Some([x] + rest)
      case _ => None
    else None
  }

  function ParseLog(text: string): Option<seq<Scaffold>> {
    ParseLogLines(Split(text, '\n'))
  }

  ghost function LogLines(scaffolds: seq<Scaffold>): seq<string> {
    if scaffolds == [] then [""] else RecordLines(scaffolds[0]) + LogLines(scaffolds[1..])
  }

  lemma {:induction false} SplitLogText(scaffolds: seq<Scaffold>)
    requires forall x :: x in scaffolds ==> NewlineFree(x)
    ensures Split(LogText(scaffolds), '\n') == LogLines(scaffolds)
  {
    if scaffolds != [] {
      var x := scaffolds[0];
      var rest := scaffolds[1..];
      assert forall y :: y in rest ==> y in scaffolds;
      SplitLogText(rest);
      FormatIsJoin(x);
      RecordLinesNewlineFree(x);
      JoinSplit(RecordLines(x), '\n');
      SplitAppend(Format(x), LogText(rest), '\n');
    }
  }

  lemma {:induction false} ParseLogLinesOfLogLines(scaffolds: seq<Scaffold>)
    ensures ParseLogLines(LogLines(scaffolds)) == Some(scaffolds)
  {
    if scaffolds != [] {
      var x := scaffolds[0];
      var l := LogLines(scaffolds);
      assert l[..6] == RecordLines(x)[..6];
      assert l[7..] == LogLines(scaffolds[1..]);
      ParseFieldsOfRecordLines(x);
      ParseLogLinesOfLogLines(scaffolds[1..]);
      assert [x] + scaffolds[1..] == scaffolds;
    }
  }

  /** The change log lists every scaffold, in list order, with all its fields:
      reading it back gives the list. */
  lemma LogRoundTrip(scaffolds: seq<Scaffold>)
    requires forall x :: x in scaffolds ==> NewlineFree(x)
    ensures ParseLog(LogText(scaffolds)) == Some(scaffolds)
  {
    SplitLogText(scaffolds);
    ParseLogLinesOfLogLines(scaffolds);
  }
}
