/**
  Loading the sequence file into `sequence` and `organism`: every input record
  is projected onto one tuple of each relation, fields copied verbatim, with no
  deduplication (one `organism` tuple per sequence record, not per taxid).
 */
module Sequences {
  import opened Schema

  /** The `sequence` tuple of a record, in the relation's column order. */
  function SequenceRowOf(rec: SequenceRecord): (row: SequenceRow)
    ensures row.accession == rec.accession && row.length == rec.length
    ensures row.seqMarker == rec.marker && row.title == rec.title
    ensures row.genomicLocation == rec.genomicLocation && row.taxid == rec.taxid
  {
    SequenceRow(rec.accession, rec.length, rec.marker, rec.title, rec.genomicLocation, rec.taxid)
  }

  /** The `organism` tuple of a record. */
  function OrganismRowOf(rec: SequenceRecord): (row: OrganismRow)
    ensures row.taxid == rec.taxid
    ensures row.scientificName == rec.scientificName && row.commonName == rec.commonName
  {
    OrganismRow(rec.taxid, rec.scientificName, rec.commonName)
  }

  /** Reads an input record back from the two tuples stored for it. */
  function Reassemble(s: SequenceRow, o: OrganismRow): SequenceRecord
  {
    SequenceRecord(s.accession, s.title, s.length, s.taxid, o.scientificName, o.commonName,
                   s.seqMarker, s.genomicLocation)
  }

  /** The projection loses nothing: the two tuples stored for a record agree on
      the taxid and together give back every field of the record. */
  lemma ProjectionLossless(rec: SequenceRecord)
    ensures SequenceRowOf(rec).taxid == OrganismRowOf(rec).taxid
    ensures Reassemble(SequenceRowOf(rec), OrganismRowOf(rec)) == rec
  {
  }

  /** Reference definition of the `sequence` tuples of a file: one per record,
      in record order. */
  function SequenceRows(data: seq<SequenceRecord>): (rows: seq<SequenceRow>)
    ensures |rows| == |data|
    ensures forall i :: 0 <= i < |data| ==> rows[i] == SequenceRowOf(data[i])
  {
    if |data| == 0 then []
    else SequenceRows(data[..|data| - 1]) + [SequenceRowOf(data[|data| - 1])]
  }

  /** Reference definition of the `organism` tuples of a file: one per record,
      in record order. */
  function OrganismRows(data: seq<SequenceRecord>): (rows: seq<OrganismRow>)
    ensures |rows| == |data|
    ensures forall i :: 0 <= i < |data| ==> rows[i] == OrganismRowOf(data[i])
  {
    if |data| == 0 then []
    else OrganismRows(data[..|data| - 1]) + [OrganismRowOf(data[|data| - 1])]
  }

  /** `load_sequence`: for each record in order, append its `sequence` tuple and
      its `organism` tuple. Both relations grow by exactly the number of
      records, the existing tuples stay in front, and the `i`-th new tuples of
      the two relations come from the `i`-th record; `species_geography` is
      left alone. */
  method LoadSequence(db: Database, data: seq<SequenceRecord>) returns (db': Database)
    ensures |db'.sequence| == |db.sequence| + |data|
    ensures |db'.organism| == |db.organism| + |data|
    ensures db'.sequence[..|db.sequence|] == db.sequence
    ensures db'.organism[..|db.organism|] == db.organism
    ensures forall i :: 0 <= i < |data| ==> db'.sequence[|db.sequence| + i] == SequenceRowOf(data[i])
    ensures forall i :: 0 <= i < |data| ==> db'.organism[|db.organism| + i] == OrganismRowOf(data[i])
    ensures db'.speciesGeography == db.speciesGeography
  {
    var sequence := db.sequence;
    var organism := db.organism;
    var i := 0;
    while i < |data|
      invariant 0 <= i <= |data|
      invariant |sequence| == |db.sequence| + i
      invariant |organism| == |db.organism| + i
      invariant sequence[..|db.sequence|] == db.sequence
      invariant organism[..|db.organism|] == db.organism
      invariant forall k :: 0 <= k < i ==> sequence[|db.sequence| + k] == SequenceRowOf(data[k])
      invariant forall k :: 0 <= k < i ==> organism[|db.organism| + k] == OrganismRowOf(data[k])
    {
      var rec := data[i];
      sequence := sequence + [SequenceRow(rec.accession, rec.length, rec.marker, rec.title,
                                          rec.genomicLocation, rec.taxid)];
      organism := organism + [OrganismRow(rec.taxid, rec.scientificName, rec.commonName)];
      i := i + 1;
    }
    db' := db.(sequence := sequence, organism := organism);
  }

  /** The loaded relations are exactly the existing tuples followed by the
      reference tuples of the file. */
  lemma LoadedIsReference(db: Database, data: seq<SequenceRecord>, db': Database)
    requires |db'.sequence| == |db.sequence| + |data|
    requires |db'.organism| == |db.organism| + |data|
    requires db'.sequence[..|db.sequence|] == db.sequence
    requires db'.organism[..|db.organism|] == db.organism
    requires forall i :: 0 <= i < |data| ==> db'.sequence[|db.sequence| + i] == SequenceRowOf(data[i])
    requires forall i :: 0 <= i < |data| ==> db'.organism[|db.organism| + i] == OrganismRowOf(data[i])
    ensures db'.sequence == db.sequence + SequenceRows(data)
    ensures db'.organism == db.organism + OrganismRows(data)
  {
  }
}
