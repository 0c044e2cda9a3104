/** The city catalog: one record per city, as the loader builds it from a
    CSV record of the fields code, province code, country code, city name,
    province name and country name, in that order. */
module Catalog {

  /** A city of the catalog. The model never changes one after it is built. */
  datatype City = City(
    code: string,
    provinceCode: string,
    countryCode: string,
    name: string,
    provinceName: string,
    countryName: string)

  /** The six fields of a city in the order the CSV record holds them. */
  function RecordOf(c: City): (line: seq<string>)
    ensures |line| == 6
  {
    [c.code, c.provinceCode, c.countryCode, c.name, c.provinceName, c.countryName]
  }

  /** The positional projection the loader applies to each record: field k of
      the record becomes the k-th field of the city, and fields after the sixth
      are ignored (the reader accepts records of any length). A record with
      fewer than six fields is outside the model: the loader indexes it without
      checking its length. */
  function CityFromRecord(line: seq<string>): (c: City)
    requires |line| >= 6
    ensures RecordOf(c) == line[..6]
  {
    City(line[0], line[1], line[2], line[3], line[4], line[5])
  }

  /** Projecting the record of a city gives the city back. */
  lemma RecordRoundTrip(c: City)
    ensures CityFromRecord(RecordOf(c)) == c
  {
  }

  /** Fields after the sixth do not change the city that is built. */
  lemma TrailingFieldsIgnored(line: seq<string>, extra: seq<string>)
    requires |line| >= 6
    ensures CityFromRecord(line + extra) == CityFromRecord(line)
  {
    assert (line + extra)[..6] == line[..6];
  }
}
