/** The provider enumeration of `rsfq/src/provs.rs`, with its `FromStr`
    and `Display` implementations. */
module Provs {
  import opened Wrappers

  datatype Provider = ENA | SRA

  /** `Provider::from_str`: exactly the lower-case names are accepted. */
  function FromStr(s: string): (r: Result<Provider, string>)
    ensures r.Err? ==> r.error == "Invalid provider: " + s
  {
    match s
    case "ena" => Ok(ENA)
    case "sra" => Ok(SRA)
    case _ => Err("Invalid provider: " + s)
  }

  /** `Display for Provider`. */
  function ToString(p: Provider): string
  {
    match p
    case ENA => "ena"
    case SRA => "sra"
  }

  /** Printing a provider and parsing the text gives the provider back. */
  lemma FromStrToString(p: Provider)
    ensures FromStr(ToString(p)) == Ok(p)
  {
  }

  /** A string parses exactly when it is the printed name of a provider,
      which is then the string itself; every other string is an error.
      Matching is case-sensitive, so `"ENA"` and `"SRA"` are rejected, as
      are `" ena"` and `""`. */
  lemma FromStrAccepts(s: string)
    ensures FromStr(s).Ok? <==> s == "ena" || s == "sra"
    ensures FromStr(s).Ok? ==> ToString(FromStr(s).value) == s
  {
  }
}
