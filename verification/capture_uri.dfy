/** The per-capture image URI the camera screens display: the temp file's
    URI with the capture time appended as a query parameter, so that every
    capture shows as a new URI. */
module CaptureUri {
  import Decimal

  const TimestampQuery: string := "?timestamp="

  /** The URI shown for a capture taken at `now`: the timestamp can be read
      back from the digits after the query key. */
  function UniqueUri(tempUri: string, now: nat): (r: string)
    ensures |r| > |tempUri| + |TimestampQuery|
    ensures r[..|tempUri|] == tempUri
    ensures Decimal.AllDigits(r[|tempUri| + |TimestampQuery|..])
    ensures Decimal.Parse(r[|tempUri| + |TimestampQuery|..]) == now
  {
    var r := tempUri + TimestampQuery + Decimal.Render(now);
    assert r[|tempUri| + |TimestampQuery|..] == Decimal.Render(now);
    Decimal.ParseRender(now);
    r
  }

  /** Captures at different times get different URIs. */
  lemma UniqueUriDistinct(tempUri: string, t1: nat, t2: nat)
    requires t1 != t2
    ensures UniqueUri(tempUri, t1) != UniqueUri(tempUri, t2)
  {
  }
}
