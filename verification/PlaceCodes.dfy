/** The GeoNames feature codes of current populated places, as the importer and the search both list them. */
module PlaceCodes {
  const PLACE_CODES: set<string> :=
    {"PPL", "PPLA", "PPLA2", "PPLA3", "PPLA4", "PPLA5", "PPLC", "PPLF", "PPLG", "PPLL", "PPLR", "PPLS", "PPLX", "STLMT"}

  /** Places of any kind but the abandoned, historical and destroyed ones (PPLH, PPLCH, PPLQ, PPLW). */
  lemma CurrentPlaces(code: string)
    ensures code in PLACE_CODES <==>
            || code == "PPL" || code == "PPLA" || code == "PPLA2" || code == "PPLA3" || code == "PPLA4"
            || code == "PPLA5" || code == "PPLC" || code == "PPLF" || code == "PPLG" || code == "PPLL"
            || code == "PPLR" || code == "PPLS" || code == "PPLX" || code == "STLMT"
  {
  }
}
