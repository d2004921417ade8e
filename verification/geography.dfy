/**
  Loading the status file into `species_geography`: each record's status
  field is split on "/", every term is mapped through the status vocabulary,
  and one row is appended per term, all sharing the record's scientific name,
  common name and raw region string.
 */
module Geography {
  import opened PyStrings
  import opened Vocabulary
  import opened Schema
  import opened Flatten

  /** The scientific name: genus and species, then the subspecies when there is
      one, separated by single spaces (`" ".join` of two or three parts). */
  function ScientificName(genus: string, species: string, subspecies: string): (name: string)
    ensures subspecies == "" ==> name == genus + " " + species
    ensures subspecies != "" ==> name == genus + " " + species + " " + subspecies
  {
    if subspecies == "" then
      assert Join([species], ' ') == species;
      assert Join([genus, species], ' ') == genus + [' '] + species;
      Join([genus, species], ' ')
    else
      assert Join([subspecies], ' ') == subspecies;
      assert Join([species, subspecies], ' ') == species + [' '] + subspecies;
      assert [genus, species, subspecies][1..] == [species, subspecies];
      Join([genus, species, subspecies], ' ')
  }

  /** When no part contains a space, the parts can be read back from the name:
      splitting it on spaces gives two parts without a subspecies, three with. */
  lemma ScientificNameParts(genus: string, species: string, subspecies: string)
    requires ' ' !in genus && ' ' !in species && ' ' !in subspecies
    ensures subspecies == "" ==>
              Split(ScientificName(genus, species, subspecies), ' ') == [genus, species]
    ensures subspecies != "" ==>
              Split(ScientificName(genus, species, subspecies), ' ') == [genus, species, subspecies]
  {
    if subspecies == "" {
      SplitJoin([genus, species], ' ');
    } else {
      SplitJoin([genus, species, subspecies], ' ');
    }
  }

  /** Lake trout with and without its subspecies. */
  lemma LakeTroutNames()
    ensures ScientificName("Salvelinus", "namaycush", "") == "Salvelinus namaycush"
    ensures ScientificName("Salvelinus", "namaycush", "siscowet") == "Salvelinus namaycush siscowet"
  {
  }

  /** `make_rows`: one row per term, in term order, each carrying the mapped
      status of its term and the shared name, common name and raw region. */
  function MakeRows(terms: seq<string>, commonName: string, scientificName: string, region: string)
    : (rows: seq<GeographyRow>)
    ensures |rows| == |terms|
    ensures forall i :: 0 <= i < |terms| ==>
              rows[i] == GeographyRow(scientificName, commonName, region, GetStatus(terms[i]))
  {
    if |terms| == 0 then []
    else
      MakeRows(terms[..|terms| - 1], commonName, scientificName, region)
      + [GeographyRow(scientificName, commonName, region, GetStatus(terms[|terms| - 1]))]
  }

  /** The "/"-separated status terms of a record. */
  function Terms(rec: StatusRecord): seq<string>
  {
    Split(rec.status, '/')
  }

  /** The scientific name of a record. */
  function NameOf(rec: StatusRecord): string
  {
    ScientificName(rec.genus, rec.species, rec.subspecies)
  }

  /** The row a record contributes for its `j`-th status term. */
  function TermRow(rec: StatusRecord, j: nat): GeographyRow
    requires j < |Terms(rec)|
  {
    GeographyRow(NameOf(rec), rec.commonName, rec.region, GetStatus(Terms(rec)[j]))
  }

  /** The rows one record contributes when every term goes through `make_rows`. */
  function RecordRows(rec: StatusRecord): seq<GeographyRow>
  {
    MakeRows(Terms(rec), rec.commonName, NameOf(rec), rec.region)
  }

  /** The loader's single-term branch stores `get_status` of the whole status
      field; that is the one row `make_rows` would produce for it, because a
      single term is the whole field. */
  lemma SingleTermRow(rec: StatusRecord)
    requires |Terms(rec)| == 1
    ensures [GeographyRow(NameOf(rec), rec.commonName, rec.region, GetStatus(rec.status))]
            == RecordRows(rec)
  {
    SplitSingle(rec.status, '/');
  }

  /** A record contributes one row per "/" in its status field, plus one. */
  lemma RecordRowCount(rec: StatusRecord)
    ensures |RecordRows(rec)| == Count(rec.status, '/') + 1
  {
    SplitCount(rec.status, '/');
  }

  /** Reference definition of the whole load: the rows of every record, in
      record order. Every record contributes at least one row. */
  function ExpandAll(data: seq<StatusRecord>): (rows: seq<GeographyRow>)
    ensures |rows| >= |data|
  {
    FlatMapAtLeast(data, RecordRows);
    FlatMap(data, RecordRows)
  }

  /** The rows of a non-empty file are those of all but its last record,
      followed by those of the last record. */
  lemma ExpandAllLast(data: seq<StatusRecord>)
    requires |data| > 0
    ensures ExpandAll(data) == ExpandAll(data[..|data| - 1]) + RecordRows(data[|data| - 1])
  {
    assert data == data[..|data| - 1] + [data[|data| - 1]];
    FlatMapSnoc(data[..|data| - 1], data[|data| - 1], RecordRows);
  }

  /** A file of one record gives exactly that record's rows. */
  lemma ExpandAllSingle(rec: StatusRecord)
    ensures ExpandAll([rec]) == RecordRows(rec)
  {
    ExpandAllLast([rec]);
    assert [rec][..0] == [];
    assert ExpandAll([]) == [];
  }

  /** Total number of status terms over all records: per record, the number of
      "/" separators plus one. */
  function TotalTerms(data: seq<StatusRecord>): nat
  {
    if |data| == 0 then 0
    else TotalTerms(data[..|data| - 1]) + Count(data[|data| - 1].status, '/') + 1
  }

  /** The loaded rows number exactly the total count of status terms. */
  lemma {:induction false} ExpandAllLength(data: seq<StatusRecord>)
    ensures |ExpandAll(data)| == TotalTerms(data)
    decreases |data|
  {
    if |data| > 0 {
      ExpandAllLast(data);
      ExpandAllLength(data[..|data| - 1]);
      RecordRowCount(data[|data| - 1]);
    }
  }

  /** There are at least as many rows as records, and exactly as many precisely
      when no status field holds a "/". */
  lemma {:induction false} ExpandAllAtLeast(data: seq<StatusRecord>)
    ensures |ExpandAll(data)| >= |data|
    ensures |ExpandAll(data)| == |data| <==>
              forall k :: 0 <= k < |data| ==> '/' !in data[k].status
    decreases |data|
  {
    if |data| > 0 {
      var prefix := data[..|data| - 1];
      var last := data[|data| - 1];
      ExpandAllLast(data);
      ExpandAllAtLeast(prefix);
      RecordRowCount(last);
      CountZero(last.status, '/');
      assert forall k :: 0 <= k < |prefix| ==> prefix[k] == data[k];
    }
  }

  /** Loading two batches one after the other gives the rows of the first batch
      followed by those of the second. */
  lemma ExpandAllAppend(a: seq<StatusRecord>, b: seq<StatusRecord>)
    ensures ExpandAll(a + b) == ExpandAll(a) + ExpandAll(b)
  {
    FlatMapAppend(a, b, RecordRows);
  }

  /** Where the rows of record `k` begin. */
  function Offset(data: seq<StatusRecord>, k: nat): nat
    requires k <= |data|
  {
    |ExpandAll(data[..k])|
  }

  /** The rows of record `k` occupy a contiguous block right after those of the
      records before it, one row per term in term order; each row carries the
      record's scientific name, common name, raw region string and the mapped
      status of its term. */
  lemma {:induction false} ExpandAllAt(data: seq<StatusRecord>, k: nat, j: nat)
    requires k < |data| && j < |Terms(data[k])|
    ensures Offset(data, k + 1) == Offset(data, k) + |Terms(data[k])|
    ensures Offset(data, k) + j < |ExpandAll(data)|
    ensures ExpandAll(data)[Offset(data, k) + j] == TermRow(data[k], j)
  {
    assert data[..k + 1][..k] == data[..k];
    assert data == data[..k + 1] + data[k + 1..];
    ExpandAllAppend(data[..k + 1], data[k + 1..]);
  }

  /** Every loaded row comes from some record and one of its terms: nothing is
      invented, and the region stored is always a record's raw region string. */
  lemma {:induction false} ExpandAllOrigin(data: seq<StatusRecord>, n: nat)
    requires n < |ExpandAll(data)|
    ensures exists k, j :: 0 <= k < |data| && 0 <= j < |Terms(data[k])| &&
              ExpandAll(data)[n] == TermRow(data[k], j)
    decreases |data|
  {
    var prefix := data[..|data| - 1];
    var last := data[|data| - 1];
    ExpandAllLast(data);
    if n < |ExpandAll(prefix)| {
      ExpandAllOrigin(prefix, n);
      var k, j :| 0 <= k < |prefix| && 0 <= j < |Terms(prefix[k])| &&
                  ExpandAll(prefix)[n] == TermRow(prefix[k], j);
      assert prefix[k] == data[k];
      assert ExpandAll(data)[n] == TermRow(data[k], j);
    } else {
      var j := n - |ExpandAll(prefix)|;
      assert ExpandAll(data)[n] == RecordRows(last)[j];
      assert ExpandAll(data)[n] == TermRow(data[|data| - 1], j);
    }
  }

  /** Loading one more record appends that record's rows. */
  lemma ExpandAllStep(data: seq<StatusRecord>, i: nat)
    requires i < |data|
    ensures ExpandAll(data[..i + 1]) == ExpandAll(data[..i]) + RecordRows(data[i])
  {
    assert data[..i + 1][..i] == data[..i];
    ExpandAllLast(data[..i + 1]);
  }

  /** `load_species_geography`: for each record in order, build the scientific
      name, split the status on "/", and append either the single row of the
      one-term branch or the `make_rows` rows; the other relations are left
      alone. */
  method LoadSpeciesGeography(db: Database, data: seq<StatusRecord>) returns (db': Database)
    ensures db'.speciesGeography == db.speciesGeography + ExpandAll(data)
    ensures db'.sequence == db.sequence && db'.organism == db.organism
  {
    var table := db.speciesGeography;
    var i := 0;
    assert data[..0] == [];
    assert table == db.speciesGeography + ExpandAll(data[..0]);
    while i < |data|
      invariant 0 <= i <= |data|
      invariant table == db.speciesGeography + ExpandAll(data[..i])
    {
      var rec := data[i];
      var scientificName := ScientificName(rec.genus, rec.species, rec.subspecies);
      var terms := Split(rec.status, '/');
      var rows;
      if |terms| == 1 {
        var status := GetStatus(rec.status);
        SingleTermRow(rec);
        rows := [GeographyRow(scientificName, rec.commonName, rec.region, status)];
      } else {
        rows := MakeRows(terms, rec.commonName, scientificName, rec.region);
      }
      assert rows == RecordRows(rec);
      ExpandAllStep(data, i);
      assert table + rows == db.speciesGeography + ExpandAll(data[..i + 1]);
      table := table + rows;
      i := i + 1;
    }
    assert data[..i] == data;
    db' := db.(speciesGeography := table);
  }
}
