# fasta-fixa scaffold reordering, modelled in Dafny

fasta-fixa's `sort` command reads a FASTA assembly. It indexes every scaffold with:

- its id and id suffix;
- a sex-chromosome flag;
- its length;
- its original position.

The command then reorders the scaffolds by one of three sort options and numbers the new order. It writes a change log with one record per scaffold, then writes the reordered FASTA with sequence lines wrapped at a fixed width.

This project models that pipeline and proves what it promises. It has five modules:

- `Text` (`text.dfy`) holds string helpers: `str::split` on one character, joining, and the `Display` renderings of `usize` and `bool`. The rest of the model is proved with them.
- `Generics` (`generics.dfy`) models `src/generics/mod.rs`:
  - the `Scaffold` record;
  - suffix extraction and the sex-marker test;
  - the indexing pass `read_fasta`;
  - the id-to-sequence map of `read_fasta_to_map`;
  - the `Display` layout of a log record;
  - `log_scaffolds`.
- `StableSort` (`stable_sort.dfy`) models `slice::sort_by_key` on scaffold length, ascending and with `Reverse`. It is an in-place insertion sort on an array, proved equal to a reference stable sort. That reference is proved to be the only reordering that is ordered by length and keeps equal lengths in their prior order. So the model agrees with Rust's sort whatever algorithm Rust uses.
- `SortFasta` (`sort_fasta.dfy`) models `src/processors/sort_fasta.rs`:
  - the sex partition;
  - the per-part sort;
  - the dispatch on `SLT`, `SLB` and `SL`;
  - the `sorted_position` loop;
  - the FASTA writer;
  - `sort_fasta_main` from parsed records to its three outputs, which are the log text, the FASTA lines and the skipped ids.
- `Samples` (`samples.dfy`) holds worked examples, proved over the model:
  - three scaffolds under `SL`;
  - the same three under `SLT` descending;
  - the two suffix examples.

Some parts are imperative in the source: the reading loops, the in-place sorts, the position loop, the log writer and the FASTA writer. These are Dafny methods with loops, each proved against a specification function. The `append`s that join the two sorted parts are sequence concatenations. The properties of those functions are proved as lemmas.

The parsed input is a `seq<FastaRecord>` of `(id, sequence)` pairs. Ids and sequences are `string`, one character per byte.

Where the code's behaviour may be unexpected:

- `SL` sorts ascending and ignores the direction. The code sorts with `sort_by_key(|s| s.scaff_length)` whatever the direction (src/processors/sort_fasta.rs:95). The model does the same; `SortFasta.SlSortsAscending` proves that the direction has no effect.
- The command line accepts `SN` (src/cli/mod.rs:3), but `sort_fasta_main` has no arm for it and reaches `unreachable!`. The model's `Reorder` returns `None` for every option except `SLT`, `SLB` and `SL`. `SortFastaMain` turns that into `UnsupportedMode(option)`.
- A direction other than `ASCENDING` or `DESCENDING` leaves both parts in input order (src/processors/sort_fasta.rs:22-28). The command line does not allow such a direction.
- Ids are not required to be distinct. The sequence map keeps the last record of each id (src/generics/mod.rs:18), and the writer looks every entry up by its id (src/processors/sort_fasta.rs:44). So with a repeated id, every entry of that id is written with the last record's sequence, and the earlier records' sequences are not written. `SortFasta.PipelineRestoresRecords` proves that the FASTA holds exactly the input records when the ids are distinct.

## Model

| member | source | states |
|---|---|---|
| Text.SplitLast | src/generics/mod.rs:80 | the last piece of `split('_')` has no `_`, ends the id, and follows its last `_`; an id without `_` is its own only piece |
| Text.SplitJoin | src/generics/mod.rs:80 | joining the pieces of a split with the separator gives the string back |
| Text.JoinSplit | src/generics/mod.rs:49 | pieces without the separator, joined and split again, come back unchanged (how a log record splits into its lines) |
| Text.NatToString | src/generics/mod.rs:53-55 | the `usize` rendering is a non-empty string of digits with no leading zero |
| Text.DecimalRoundTrip | src/generics/mod.rs:53-55 | every rendered `usize` reads back as itself |
| Generics.Contains | src/generics/mod.rs:64 | `str::contains` is true exactly when the pattern occurs at some index |
| Generics.ContainsAny | src/generics/mod.rs:62-64 | `.iter().any(contains)` is true exactly when some pattern in the list occurs |
| Generics.ContainsSexScaff | src/generics/mod.rs:61-65 | a suffix is a sex suffix exactly when one of its characters is one of X x Y y Z z W w |
| Generics.IdSuffix | src/generics/mod.rs:77-83 | without `_` the suffix is "NA"; with `_` it is a suffix of the id, has no `_`, and is preceded by `_` |
| Generics.IdSuffixAfterLastUnderscore | src/generics/mod.rs:79-80 | for any head, the suffix of head + "_" + tail is exactly tail when tail has no `_`, including the empty tail |
| Generics.ReadFasta | src/generics/mod.rs:68-99 | the loop builds the index: one entry per record in input order |
| Generics.IndexEntry | src/generics/mod.rs:86-93 | entry i carries record i's id, its suffix, the sex flag of that suffix, the sequence's length, original position i and sorted position 0 |
| Generics.OriginalPositionsExact | src/generics/mod.rs:71-95 | the original positions of the index are exactly 0 .. n-1, and no two entries share one |
| Generics.ReadFastaToMap | src/generics/mod.rs:10-21 | the loop builds the fold of the records into the map |
| Generics.SequenceMapKeys | src/generics/mod.rs:14-19 | the map's keys are exactly the ids of the records |
| Generics.SequenceMapLastWins | src/generics/mod.rs:18 | for an id with several records, the map holds the sequence of the last one |
| Generics.FormatIsJoin | src/generics/mod.rs:45-57 | a log record is its six labelled field lines and a final empty line, joined by newlines |
| Generics.FormatRoundTrip | src/generics/mod.rs:45-57 | a log record reads back as the scaffold it was written from; every field is recoverable |
| Generics.LogScaffolds | src/generics/mod.rs:24-33 | the loop writes each record followed by a newline, in list order |
| Generics.LogRoundTrip | src/generics/mod.rs:28-30 | the whole log reads back as the list of scaffolds, in order |
| StableSort.InsertAt | src/processors/sort_fasta.rs:23 | one insertion step moves the element left past exactly the elements that may not precede it, and leaves the rest of the array alone |
| StableSort.SortByLength | src/processors/sort_fasta.rs:22-27 | the in-place sort leaves the array equal to the reference stable sort of its old contents |
| StableSort.StableSortPermutation | src/processors/sort_fasta.rs:22-27 | the sort is a permutation of its input |
| StableSort.StableSortSorted | src/processors/sort_fasta.rs:22-27 | the result does not decrease in length ascending, and does not increase descending |
| StableSort.StableSortStable | src/processors/sort_fasta.rs:22-27 | scaffolds of equal length keep their prior relative order |
| StableSort.StableSortAsUnique | src/processors/sort_fasta.rs:23 | a list is the stable sort of s if and only if it is ordered by length and keeps each equal-length group of s in order |
| SortFasta.OfSexMembers | src/processors/sort_fasta.rs:10 | a scaffold is in a part exactly when it is in the input and has that part's sex flag |
| SortFasta.Partition | src/processors/sort_fasta.rs:10 | the `partition` fold appends the sex scaffolds to the first list and the others to the second, each in input order |
| SortFasta.SplitBySexScaff | src/processors/sort_fasta.rs:9-11 | the first list holds exactly the sex scaffolds and the second exactly the others, in input order; together they are a permutation of the input |
| SortFasta.OfSexPermutation | src/processors/sort_fasta.rs:9-11 | the two parts together are the input, as a multiset |
| SortFasta.SortPart | src/processors/sort_fasta.rs:22-28 | one part, sorted in place by the direction, or returned as is for another direction |
| SortFasta.SexBasedSorting | src/processors/sort_fasta.rs:16-31 | returns the sex part and the other part, each arranged by the direction |
| SortFasta.ArrangeSpec | src/processors/sort_fasta.rs:22-30 | each part comes out as a permutation of itself with equal lengths in prior order; it is ascending for "ASCENDING" and descending for "DESCENDING", and unchanged for any other direction |
| SortFasta.SltSlbSameParts | src/processors/sort_fasta.rs:71-92 | `SLT` and `SLB` give the same sex part and the same other part, in the same inner order; `SLT` puts the sex part first and `SLB` puts it last |
| SortFasta.SlSortsAscending | src/processors/sort_fasta.rs:93-98 | `SL` gives a stable ascending permutation of all scaffolds, the same for every direction |
| SortFasta.OrderBy | src/processors/sort_fasta.rs:70-100 | the dispatch gives the order `Reorder` defines: the two sorted parts sex first for `SLT`, sex last for `SLB`, the in-place ascending sort for `SL`, and no order for any other option |
| SortFasta.ReorderPermutation | src/processors/sort_fasta.rs:70-100 | an order exists exactly for `SLT`, `SLB` and `SL`, and it is a permutation of the index |
| SortFasta.AssignSortedPositions | src/processors/sort_fasta.rs:102-105 | the loop writes sorted position i into element i and nothing else |
| SortFasta.SortedPositionsExact | src/processors/sort_fasta.rs:103-105 | after numbering, element i has sorted position i, every other field and the length are unchanged, and the positions are exactly 0 .. n-1 |
| SortFasta.Chunks | src/processors/sort_fasta.rs:48 | the chunks concatenate to the sequence, and there are none exactly when the sequence is empty |
| SortFasta.ChunksShape | src/processors/sort_fasta.rs:48 | every chunk is non-empty and at most the line length long, and every chunk but the last has exactly the line length |
| SortFasta.WriteSequence | src/processors/sort_fasta.rs:48-50 | the chunk loop appends one line per chunk |
| SortFasta.ChunksStep | src/processors/sort_fasta.rs:48-50 | each turn of the chunk loop takes the next line-length piece, or the rest |
| SortFasta.WriteScaffold | src/processors/sort_fasta.rs:44-53 | a scaffold found in the map gets its header and its chunks; a missing one is added to the skipped ids and produces no lines |
| SortFasta.WriteOrderedFasta | src/processors/sort_fasta.rs:34-56 | the writer emits the blocks of the scaffolds in list order and skips exactly the ids missing from the map, without stopping |
| SortFasta.WriterRoundTrip | src/processors/sort_fasta.rs:43-54 | reading the written lines back as FASTA gives one record per scaffold found in the map, in list order, with its id and whole sequence, provided the sequences hold no '>' |
| SortFasta.SortFastaMain | src/processors/sort_fasta.rs:59-120 | a run indexes the records, orders them by the option, numbers the order, and returns its log text, its FASTA lines and its skipped ids; an unsupported option gives `UnsupportedMode` |
| SortFasta.PipelineKeepsEveryRecord | src/processors/sort_fasta.rs:68-113 | a completed run outputs every input id exactly as often as the input holds it, numbered 0 .. n-1 in output order, and skips none |
| SortFasta.PipelineFastaReadsBack | src/processors/sort_fasta.rs:111-119 | the FASTA of a completed run reads back as one record per output entry, in output order, with the sequence the map holds for its id |
| SortFasta.PipelineRestoresRecords | src/processors/sort_fasta.rs:110-119 | with distinct ids and sequences without '>', the FASTA of a completed run reads back as exactly the input records, each once |
| SortFasta.PipelineLogReadsBack | src/processors/sort_fasta.rs:107-109 | when no input id contains a newline, the change log of a completed run reads back as the run's numbered order |
| SortFasta.IdsOfPermutation | src/processors/sort_fasta.rs:70-100 | reordering scaffolds reorders their ids alike |
| Samples.SampleIndex | src/generics/mod.rs:79-93 | chr1_A, chr2_X and chr3_B are indexed with suffixes A, X and B; only chr2_X is a sex scaffold |
| Samples.SampleSortLength | src/processors/sort_fasta.rs:93-98 | `SL` ascending orders the sample chr2_X, chr1_A, chr3_B |
| Samples.SampleSexTopDescending | src/processors/sort_fasta.rs:71-81 | `SLT` descending orders the sample chr2_X, chr3_B, chr1_A |
| Samples.SampleSexSuffix | src/generics/mod.rs:79-89 | "scaffold_12_Wmt" has suffix "Wmt", which is a sex suffix |
| Samples.SampleNoSuffix | src/generics/mod.rs:79-89 | "scaffold12" has suffix "NA", which is not a sex suffix |

## Left out

- FASTA tokenising and record parsing by `needletail::parse_fastx_file` (src/generics/mod.rs:11,69) belong to a foreign library. The model takes the parsed `(id, sequence)` records as its input. Both reading passes see the same records.
- `String::from_utf8_lossy` (src/generics/mod.rs:16,75; src/processors/sort_fasta.rs:46,49) is not modelled. Ids and sequences are character strings with one character per byte, and chunking works on characters.
- File creation, `BufWriter`, `?` error propagation, the `.expect` aborts and the ignored result of `log_scaffolds` (src/processors/sort_fasta.rs:40-41,109,119) are I/O plumbing. The log is returned as its text. The FASTA is returned as its lines, each of which `writeln!` ends with a newline.
- The output path strings (src/processors/sort_fasta.rs:108,116) are left out with the files.
- The `println!` banners are not modelled. The `eprintln!` warning for a scaffold missing from the map is modelled as the list of skipped ids.
- The `clap` command line, its option lists and default values, and `run`/`main` are thin wrappers. src/cli/mod.rs, src/lib.rs and src/main.rs are not part of this model.
- SortFasta.WriteOrderedFasta: requires a line length of at least 1. `chunks(0)` panics, and the command line does not exclude 0, so that panic is not modelled.
- SortFasta.SortFastaMain: `unreachable!` for an unknown sort option is modelled as the `UnsupportedMode` outcome, not as a panic.
- `usize` overflow of lengths and positions is not modelled; they are unbounded naturals. A length or position that large cannot arise from an input that fits in memory.
- `Vec::append` and the moves of owned vectors are modelled as sequence concatenation. The in-place sorts and the position loop work on arrays.
- StableSort.SortByLength: Rust's own sorting algorithm is not modelled. The model uses an insertion sort, and `StableSort.StableSortAsUnique` shows that every stable sort by length gives its result.
