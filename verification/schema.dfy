/**
  The records the loader reads and the three relations it writes. Every column
  is untyped text in the store, so every field here is a `string`; an input
  record is a row of a tab-delimited file already parsed by its header names.
 */
module Schema {

  /** One row of the status file (columns Genus, Species, Subspecies,
      Common name, Status, Region). */
  datatype StatusRecord = StatusRecord(
    genus: string,
    species: string,
    subspecies: string,
    commonName: string,
    status: string,
    region: string)

  /** One row of the sequence file (columns accession, title, length, taxid,
      scientific_name, common_name, marker, genomic_location). */
  datatype SequenceRecord = SequenceRecord(
    accession: string,
    title: string,
    length: string,
    taxid: string,
    scientificName: string,
    commonName: string,
    marker: string,
    genomicLocation: string)

  /** A tuple of `species_geography(scientific_name, common_name, region, status)`. */
  datatype GeographyRow = GeographyRow(
    scientificName: string,
    commonName: string,
    region: string,
    status: string)

  /** A tuple of `sequence(accession, length, seq_marker, title, genomic_location, taxid)`. */
  datatype SequenceRow = SequenceRow(
    accession: string,
    length: string,
    seqMarker: string,
    title: string,
    genomicLocation: string,
    taxid: string)

  /** A tuple of `organism(taxid, scientific_name, common_name)`. */
  datatype OrganismRow = OrganismRow(
    taxid: string,
    scientificName: string,
    commonName: string)

  /** The store: three relations without keys or constraints, each a sequence of
      tuples in insertion order; an insert is an append. */
  datatype Database = Database(
    speciesGeography: seq<GeographyRow>,
    sequence: seq<SequenceRow>,
    organism: seq<OrganismRow>)

  /** `create_db`: whatever store existed under the name is deleted and the
      three relations are created afresh, so nothing of `previous` survives. */
  function CreateDb(previous: Database): (db: Database)
    ensures |db.speciesGeography| == 0 && |db.sequence| == 0 && |db.organism| == 0
  {
    Database([], [], [])
  }
}
