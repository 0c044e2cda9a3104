/** The three distributors the program configures, what the prefix rule
    decides for some codes under them, and the program's run over them. */
module Configuration {
  import opened Catalog
  import opened Permission
  import opened Distribution

  const Distributor1 := Distributor("DISTRIBUTOR1",
    IncludeExclude(["IN", "US"], ["KARNATAKA-IN", "CHENNAI-TAMILNADU-IN"]))
  const Distributor2 := Distributor("DISTRIBUTOR2",
    IncludeExclude(["IN"], ["TAMILNADU-IN"]))
  const Distributor3 := Distributor("DISTRIBUTOR3",
    IncludeExclude(["HUBLI-KARNATAKA-IN"], []))

  const Distributors := [Distributor1, Distributor2, Distributor3]

  /** The rule entry must be a prefix of the code, not the other way round: a
      city-level grant covers exactly the codes that start with it, and not
      the broader province code it ends with. */
  lemma PrefixDirection()
    ensures Permit(Distributor3.permissions, "HUBLI-KARNATAKA-IN")
    ensures !Permit(Distributor3.permissions, "KARNATAKA-IN")
    ensures !Permit(Distributor3.permissions, "IN")
  {
  }

  /** Distributor 2 grants codes that start with "IN" and denies codes that
      start with "TAMILNADU-IN". A most-specific-first code such as
      "BANGALORE-KARNATAKA-IN" starts with neither, so it is denied by
      default: the country entry "IN" grants it nothing. */
  lemma SecondDistributorDecisions()
    ensures Permit(Distributor2.permissions, "IN")
    ensures Permit(Distributor2.permissions, "INDIA")
    ensures !Permit(Distributor2.permissions, "TAMILNADU-IN")
    ensures !Permit(Distributor2.permissions, "CHENNAI-TAMILNADU-IN")
    ensures !Permit(Distributor2.permissions, "BANGALORE-KARNATAKA-IN")
    ensures !Permit(Distributor2.permissions, "US-NY")
  {
    assert "CHENNAI-TAMILNADU-IN"[0] != "IN"[0];
    assert "US-NY"[0] != "IN"[0];
  }

  /** Distributor 1 grants codes starting with "IN" or "US", except those
      starting with one of its exclude entries. */
  lemma FirstDistributorDecisions()
    ensures Permit(Distributor1.permissions, "US")
    ensures Permit(Distributor1.permissions, "IN")
    ensures !Permit(Distributor1.permissions, "KARNATAKA-IN")
    ensures !Permit(Distributor1.permissions, "CHENNAI-TAMILNADU-IN")
    ensures !Permit(Distributor1.permissions, "MUMBAI-MAHARASHTRA-IN")
  {
    assert "MUMBAI-MAHARASHTRA-IN"[0] != "IN"[0];
    assert "MUMBAI-MAHARASHTRA-IN"[0] != "US"[0];
  }

  /** The program's run once the catalog is loaded: the configured
      distributors are evaluated over the catalog and their blocks printed in
      the order `completion` says their evaluations finish. Three blocks are
      printed, one per configured distributor, each with one row per city. */
  method RunConfigured(cities: seq<City>, completion: seq<int>) returns (printed: seq<Block>)
    requires IsSchedule(completion, |Distributors|)
    ensures |printed| == 3
    ensures forall j :: 0 <= j < 3 ==> |printed[j].rows| == |cities|
    ensures multiset{printed[0].distributor, printed[1].distributor, printed[2].distributor} ==
            multiset{"DISTRIBUTOR1", "DISTRIBUTOR2", "DISTRIBUTOR3"}
    ensures completion == [2, 0, 1] ==> printed[0].distributor == "DISTRIBUTOR3"
  {
    printed := PrintPermissions(cities, Distributors, completion);
    var names := [printed[0].distributor, printed[1].distributor, printed[2].distributor];
    var want := ["DISTRIBUTOR1", "DISTRIBUTOR2", "DISTRIBUTOR3"];
    assert names == Pick(want, completion);
    PickPermutation(want, completion, Indices(3));
    assert want == Pick(want, Indices(3));
  }
}
