/**
 * The fixed country catalog offered by the dropdown, and the lookup that
 * resolves a geolocation country code to one of its entries.
 */
module Catalog {
  import opened Wrappers

  /** One dropdown entry: the ISO country code and the name shown for it (`label` in the source; `label` is a Dafny keyword). */
  datatype CountryOption = CountryOption(value: string, displayName: string)

  /** The ten options, in dropdown order. */
  const CountryOptions: seq<CountryOption> := [
    CountryOption("US", "United States"),
    CountryOption("CA", "Canada"),
    CountryOption("GB", "United Kingdom"),
    CountryOption("DE", "Germany"),
    CountryOption("FR", "France"),
    CountryOption("AU", "Australia"),
    CountryOption("IN", "India"),
    CountryOption("BR", "Brazil"),
    CountryOption("JP", "Japan"),
    CountryOption("MX", "Mexico")
  ]

  /**
   * `opts.find(option => option.value === code) || null`: the first option
   * carrying the code, or None when no option carries it.
   */
  function Find(opts: seq<CountryOption>, code: string): (r: Option<CountryOption>)
    ensures r.Some? ==> r.value in opts && r.value.value == code
    ensures r.None? ==> forall o :: o in opts ==> o.value != code
  {
    if opts == [] then None
    else if opts[0].value == code then Some(opts[0])
    else Find(opts[1..], code)
  }

  /** The search stops at the FIRST option whose value is the code. */
  lemma {:induction false} FindReturnsFirst(opts: seq<CountryOption>, code: string, i: nat)
    requires i < |opts| && opts[i].value == code
    requires forall j :: 0 <= j < i ==> opts[j].value != code
    ensures Find(opts, code) == Some(opts[i])
  {
    if i > 0 {
      FindReturnsFirst(opts[1..], code, i - 1);
    }
  }

  /** No two catalog entries share a country code. */
  lemma CatalogCodesDistinct()
    ensures forall i, j :: 0 <= i < j < |CountryOptions| ==> CountryOptions[i].value != CountryOptions[j].value
  {
  }

  /**
   * Looking a code up in the catalog selects exactly the entry with that
   * code, and nothing when no entry has it.
   */
  lemma LookupSelectsExactly(code: string)
    ensures forall o :: o in CountryOptions ==> (Find(CountryOptions, code) == Some(o) <==> o.value == code)
    ensures Find(CountryOptions, code).None? <==> forall o :: o in CountryOptions ==> o.value != code
  {
    CatalogCodesDistinct();
    forall o | o in CountryOptions && o.value == code
      ensures Find(CountryOptions, code) == Some(o)
    {
      var i :| 0 <= i < |CountryOptions| && CountryOptions[i] == o;
      FindReturnsFirst(CountryOptions, code, i);
    }
  }

  /** "FR" resolves to the France entry. */
  lemma LookupFrance()
    ensures Find(CountryOptions, "FR") == Some(CountryOption("FR", "France"))
  {
    LookupSelectsExactly("FR");
    assert CountryOptions[4] == CountryOption("FR", "France");
  }

  /** The unmapped "ZZ" resolves to nothing. */
  lemma LookupUnmapped()
    ensures Find(CountryOptions, "ZZ") == None
  {
    assert forall o :: o in CountryOptions ==> o.value[0] != 'Z';
    LookupSelectsExactly("ZZ");
  }
}
