# Fish marker database loader — Dafny model

This project models the row transformation at the heart of the fish marker
database builder (`scripts/markerdb/create_fish_db.py`). The builder turns two
tab-delimited files into three relations.

- The status file holds one record per species and region, with one or more
  statuses. It goes into `species_geography`. The scientific name is built
  from genus, species and an optional subspecies. The status field is split on `/`. Each term is
  mapped through the status vocabulary (`N` to `native`, `I` to `introduced`,
  and so on; unknown terms are kept as they are). One row is stored per term.
  The raw region string is stored. The numeric region code is never stored.
- The sequence file holds one record per sequence. Each record becomes one
  `sequence` tuple and one `organism` tuple. Fields are copied verbatim and
  nothing is deduplicated.

The model works on already-parsed records. A relation is a `seq` of tuples and
an insert is an append. The two loaders are methods whose loops follow the
source's `for` loops, including the separate single-term branch. Each is
proved equal to a functional reference (`ExpandAll`, `SequenceRows`,
`OrganismRows`). `ExpandAll` is built from the same `MakeRows` that the
loader's multi-term branch calls. What it means is pinned down by the lemmas
`ExpandAllAt`, `ExpandAllLength` and `ExpandAllOrigin`: row counts, row order,
per-row contents and where each row comes from.
Python's `str.split` and `str.join` are modelled exactly for a one-character
separator, and proved to be inverses of each other.

Modules, in dependency order:
`PyStrings` (split, join, count), `Vocabulary` (`STATUS_CODE`, `REGION_CODE`),
`Schema` (records, rows, the store), `Flatten` (appending a batch of rows per
input record, as a generic `FlatMap`), `Geography` (`make_rows`,
`load_species_geography`), `Sequences` (`load_sequence`), `Pipeline` (the run
order of `main`).

## Model

| member | source | states |
|---|---|---|
| `Vocabulary.GetStatus` | scripts/markerdb/create_fish_db.py:7-9 | each of the eight codes N, NN, SOC, E, I, R, W, X yields its label; any other string comes back unchanged |
| `Vocabulary.StatusFixedIff` | scripts/markerdb/create_fish_db.py:77-78 | a term is stored unchanged exactly when it is not a known code (no label is itself a code) |
| `Vocabulary.StatusIdempotent` | scripts/markerdb/create_fish_db.py:77-78 | mapping an already mapped status again changes nothing |
| `Vocabulary.StatusCollisions` | scripts/markerdb/create_fish_db.py:7-9 | two different terms store the same status exactly when one is a code and the other its label |
| `Vocabulary.GetRegionCode` | scripts/markerdb/create_fish_db.py:11-15 | North America gives 2, Great Lakes Basin 3, Planet Earth 4, every other string 0 |
| `Vocabulary.RegionCodeZeroIff` | scripts/markerdb/create_fish_db.py:81-82 | the code is one of 0, 2, 3, 4, and it is 0 exactly for strings that are not named regions |
| `Schema.CreateDb` | scripts/markerdb/create_fish_db.py:31-48 | after recreation all three relations are empty, whatever the store held before |
| `PyStrings.Join` | scripts/markerdb/create_fish_db.py:105 | `sep.join(parts)` puts a separator between neighbouring parts, so it has at least one character fewer than there are parts; `SplitJoin` and `JoinSplit` state that it inverts split |
| `PyStrings.Split` | scripts/markerdb/create_fish_db.py:106 | splitting on "/" always gives at least one term, and no term contains "/" |
| `PyStrings.JoinSplit` | scripts/markerdb/create_fish_db.py:106 | joining the terms with "/" gives back the original status string |
| `PyStrings.SplitJoin` | scripts/markerdb/create_fish_db.py:105-106 | splitting a join of separator-free parts gives back the parts, so split and join are inverse |
| `PyStrings.SplitCount` | scripts/markerdb/create_fish_db.py:106 | the number of terms is the number of "/" characters plus one, so empty terms are kept |
| `PyStrings.SplitSingle` | scripts/markerdb/create_fish_db.py:111-113 | there is exactly one term iff the status has no "/", and that term is then the whole status |
| `Geography.ScientificName` | scripts/markerdb/create_fish_db.py:105 | the name is genus, space, species, then space and subspecies only when the subspecies is non-empty |
| `Geography.ScientificNameParts` | scripts/markerdb/create_fish_db.py:105 | when no part contains a space, splitting the name on spaces gives back the two or three parts |
| `Geography.LakeTroutNames` | scripts/markerdb/create_fish_db.py:105 | Salvelinus namaycush without a subspecies and Salvelinus namaycush siscowet with one |
| `Geography.MakeRows` | scripts/markerdb/create_fish_db.py:85-92 | exactly one row per term, in term order; row i carries the mapped status of term i and the shared name, common name and raw region |
| `Geography.SingleTermRow` | scripts/markerdb/create_fish_db.py:111-124 | the single-term branch stores the same one row that make_rows would store for that term |
| `Geography.RecordRowCount` | scripts/markerdb/create_fish_db.py:106-124 | a record contributes one row per "/" in its status, plus one |
| `Geography.ExpandAll` | scripts/markerdb/create_fish_db.py:99-124 | the reference rows of a whole status file, with at least one row per record; the full characterisation is in ExpandAllAt, ExpandAllLength and ExpandAllOrigin |
| `Geography.ExpandAllLength` | scripts/markerdb/create_fish_db.py:99-124 | the number of loaded rows is the sum over records of their term counts |
| `Geography.ExpandAllAtLeast` | scripts/markerdb/create_fish_db.py:99-124 | there are at least as many rows as records, with equality exactly when no status contains "/" |
| `Geography.ExpandAllAppend` | scripts/markerdb/create_fish_db.py:99 | loading two batches of records gives the first batch's rows followed by the second's |
| `Geography.ExpandAllAt` | scripts/markerdb/create_fish_db.py:99-124 | record k's rows form a contiguous block after those of earlier records, in term order, each with the record's name, common name, raw region and mapped status |
| `Geography.ExpandAllOrigin` | scripts/markerdb/create_fish_db.py:104-118 | every stored row comes from some record and one of its terms; the stored region is always a raw input region string |
| `Geography.LoadSpeciesGeography` | scripts/markerdb/create_fish_db.py:95-126 | the loader appends exactly the reference rows of all records to species_geography and leaves the other relations unchanged |
| `Sequences.SequenceRowOf` | scripts/markerdb/create_fish_db.py:156-165 | the sequence tuple copies accession, length, marker, title, genomic location and taxid verbatim, in that column order |
| `Sequences.OrganismRowOf` | scripts/markerdb/create_fish_db.py:159-167 | the organism tuple copies taxid, scientific name and common name verbatim, in that column order |
| `Sequences.ProjectionLossless` | scripts/markerdb/create_fish_db.py:155-167 | the sequence and organism tuples of a record share its taxid and together give back every field of the record |
| `Sequences.SequenceRows` | scripts/markerdb/create_fish_db.py:165-169 | one sequence tuple per record, in record order, with columns accession, length, marker, title, location, taxid |
| `Sequences.OrganismRows` | scripts/markerdb/create_fish_db.py:167-170 | one organism tuple per record, in record order, with columns taxid, scientific name, common name |
| `Sequences.LoadSequence` | scripts/markerdb/create_fish_db.py:149-172 | both relations grow by exactly the number of records; existing tuples stay in front; the i-th new tuples come from the i-th record; species_geography is unchanged |
| `Sequences.LoadedIsReference` | scripts/markerdb/create_fish_db.py:155-170 | a store that satisfies the loader's postcondition holds the existing tuples followed by the reference tuples |
| `Pipeline.Build` | scripts/markerdb/create_fish_db.py:216-220 | a full run's three relations depend only on the two input files, so prior store contents are discarded |
| `Pipeline.PikeGeography` | scripts/markerdb/create_fish_db.py:99-124 | a pike with status N/I in North America gives a native row and an introduced row, both with region "North America" |
| `Pipeline.PikeSequenceRows` | scripts/markerdb/create_fish_db.py:155-170 | one pike sequence record gives one sequence tuple and one organism tuple |

## Left out

- The SQLite connection, including the `get_conn` path that prints a message and hands back an unusable handle when the store cannot be opened (lines 18-28). This is a foreign library with an I/O failure mode. The model takes the store as a value.
- Deleting an existing store file (lines 32-33). This is filesystem I/O. Its effect is modelled only as "the relations start empty" (`Schema.CreateDb`).
- Reading and parsing the tab-delimited files (`parse_status_file` and the reader in `load_sequence`, lines 56-74 and 153). The loaders take already-parsed records. A missing header column is a runtime error of the parser and is not modelled.
- Short input rows. A row with fewer fields than the header gets `None` for the missing trailing columns. The model's records hold only strings, so they cannot represent this. In the source, a `None` genus, species, subspecies or status raises an exception at lines 105-106. A `None` common name, region or sequence field is stored as NULL (lines 119, 124, 169-170).
- The `commit` calls (lines 51, 126, 172). The status loader commits once per record and the sequence loader once per file. This difference matters only for partial failure and durability, which a pure model does not have.
- The `CREATE INDEX` statements (lines 132-141 and 178-189). They do not change table contents.
- Progress messages and the command-line interface (lines 128, 143, 173-174, 197-211). These are plumbing.
- Geography.ExpandAll: its own contract says only that there are at least as many rows as records. What it computes is stated by the lemmas ExpandAllAt, ExpandAllLength and ExpandAllOrigin.
- PyStrings.Join: its own contract states only a length bound. Its exact result is pinned down by the inverse lemmas SplitJoin and JoinSplit; a fuller contract made every proof that unfolds the scientific name too expensive.
- `PyStrings.Split`, `PyStrings.Join`: only a one-character separator is modelled. The source only ever splits on "/" and joins with " ".
