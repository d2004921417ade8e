/**
  The whole run: recreate the store, load the status file, then load the
  sequence file. The tables end up holding only what this run loaded.
 */
module Pipeline {
  import opened Schema
  import opened Geography
  import opened Sequences

  /** One run of the tool against a store that held `previous`: the result is
      determined by the two input files alone, so rerunning with the same files
      gives the same store whatever it held before. */
  method Build(previous: Database, statusData: seq<StatusRecord>, sequenceData: seq<SequenceRecord>)
    returns (db: Database)
    ensures db.speciesGeography == ExpandAll(statusData)
    ensures db.sequence == SequenceRows(sequenceData)
    ensures db.organism == OrganismRows(sequenceData)
  {
    var empty := CreateDb(previous);
    var withGeography := LoadSpeciesGeography(empty, statusData);
    db := LoadSequence(withGeography, sequenceData);
    LoadedIsReference(withGeography, sequenceData, db);
  }

  /** The status record of a pike recorded as native and introduced in North
      America. */
  function PikeStatus(): StatusRecord
  {
    StatusRecord("Esox", "lucius", "", "Northern Pike", "N/I", "North America")
  }

  /** The sequence record of a pike mitochondrial genome. */
  function PikeSequence(): SequenceRecord
  {
    SequenceRecord("AB123", "mito genome", "16500", "8035", "Esox lucius", "Northern Pike",
                   "COI", "mitochondrion")
  }

  /** The status "N/I" gives two geography rows, native then introduced, both
      with the raw region string. */
  lemma PikeGeography()
    ensures ExpandAll([PikeStatus()])
            == [GeographyRow("Esox lucius", "Northern Pike", "North America", "native"),
                GeographyRow("Esox lucius", "Northern Pike", "North America", "introduced")]
  {
    var rec := PikeStatus();
    assert Terms(rec) == ["N", "I"] by {
      PyStrings.SplitJoin(["N", "I"], '/');
      assert PyStrings.Join(["N", "I"], '/') == "N/I";
    }
    assert NameOf(rec) == "Esox lucius";
    ExpandAllSingle(rec);
  }

  /** The one sequence record gives one tuple in each of the two relations. */
  lemma PikeSequenceRows()
    ensures SequenceRows([PikeSequence()])
            == [SequenceRow("AB123", "16500", "COI", "mito genome", "mitochondrion", "8035")]
    ensures OrganismRows([PikeSequence()]) == [OrganismRow("8035", "Esox lucius", "Northern Pike")]
  {
  }
}
