/** The canonicalisation loop and the digest of an artifact (src/regime_data_fetch/canonical_parquet.py). */
module CanonicalParquet {
  import opened Wrappers

  type Bytes = seq<bv8>

  /** One read-and-rewrite pass over a parquet payload; None where the payload cannot be read. */
  type Pass = Bytes -> Option<Bytes>

  datatype CanonicalError = Unreadable | DidNotConverge

  const ROUNDS := 3

  /** What the loop makes of a payload in the rounds it has left. */
  function Settle(pass: Pass, payload: Bytes, rounds: nat): Result<Bytes, CanonicalError>
    decreases rounds
  {
    if rounds == 0 then Err(DidNotConverge)
    else
      match pass(payload)
      case None => Err(Unreadable)
      case Some(next) => if next == payload then Ok(payload) else Settle(pass, next, rounds - 1)
  }

  function Canonical(pass: Pass, source: Bytes): Result<Bytes, CanonicalError> {
    match pass(source)
    case None => Err(Unreadable)
    case Some(payload) => Settle(pass, payload, ROUNDS)
  }

  /** `canonicalize_parquet_bytes`. */
  method CanonicalizeParquetBytes(pass: Pass, source: Bytes) returns (result: Result<Bytes, CanonicalError>)
    ensures result == Canonical(pass, source)
  {
    var first := pass(source);
    if first.None? {
      return Err(Unreadable);
    }
    var payload := first.value;
    for round := 0 to ROUNDS
      invariant Canonical(pass, source) == Settle(pass, payload, ROUNDS - round)
    {
      var next := pass(payload);
      if next.None? {
        return Err(Unreadable);
      }
      if next.value == payload {
        return Ok(payload);
      }
      payload := next.value;
    }
    return Err(DidNotConverge);
  }

  /** The payload after a number of passes; None once a pass failed. */
  function Iterate(pass: Pass, source: Bytes, n: nat): Option<Bytes>
    decreases n
  {
    if n == 0 then Some(source)
    else
      match pass(source)
      case None => None
      case Some(next) => Iterate(pass, next, n - 1)
  }

  lemma {:induction false} SettleFixpoint(pass: Pass, payload: Bytes, rounds: nat)
    requires Settle(pass, payload, rounds).Ok?
    ensures pass(Settle(pass, payload, rounds).value) == Some(Settle(pass, payload, rounds).value)
    ensures exists n: nat :: n < rounds && Iterate(pass, payload, n) == Some(Settle(pass, payload, rounds).value)
    decreases rounds
  {
    var next := pass(payload).value;
    if next == payload {
      assert Iterate(pass, payload, 0) == Some(payload);
    } else {
      SettleFixpoint(pass, next, rounds - 1);
      var n: nat :| n < rounds - 1 && Iterate(pass, next, n) == Some(Settle(pass, payload, rounds).value);
      assert Iterate(pass, payload, n + 1) == Iterate(pass, next, n);
    }
  }

  lemma {:induction false} SettleReaches(pass: Pass, payload: Bytes, rounds: nat, n: nat)
    requires n < rounds && Iterate(pass, payload, n).Some?
    requires pass(Iterate(pass, payload, n).value) == Iterate(pass, payload, n)
    ensures Settle(pass, payload, rounds) == Ok(Iterate(pass, payload, n).value)
    decreases n
  {
    if n > 0 {
      var next := pass(payload).value;
      SettleReaches(pass, next, rounds - 1, n - 1);
      if next == payload { FixpointStays(pass, payload, n - 1); }
    }
  }

  lemma {:induction false} FixpointStays(pass: Pass, payload: Bytes, n: nat)
    requires pass(payload) == Some(payload)
    ensures Iterate(pass, payload, n) == Some(payload)
  {
    if n > 0 { FixpointStays(pass, payload, n - 1); }
  }

  predicate FixpointAfter(pass: Pass, source: Bytes, n: nat) {
    Iterate(pass, source, n).Some? && pass(Iterate(pass, source, n).value) == Iterate(pass, source, n)
  }

  /**
   For an arbitrary pass, whatever the loop returns is a fixpoint of the pass and canonicalises to itself. The loop
   succeeds exactly when one of the first three passes already reaches a fixpoint.
   */
  lemma CanonicalIsFixpoint(pass: Pass, source: Bytes)
    ensures Canonical(pass, source).Ok? ==>
              var c := Canonical(pass, source).value; pass(c) == Some(c) && Canonical(pass, c) == Ok(c)
    ensures Canonical(pass, source).Ok? <==> exists n: nat :: 1 <= n <= ROUNDS && FixpointAfter(pass, source, n)
  {
    if Canonical(pass, source).Ok? {
      var payload := pass(source).value;
      SettleFixpoint(pass, payload, ROUNDS);
      var c := Canonical(pass, source).value;
      SettleReaches(pass, c, ROUNDS, 0);
      var n: nat :| n < ROUNDS && Iterate(pass, payload, n) == Some(c);
      assert FixpointAfter(pass, source, n + 1);
    }
    if n: nat :| 1 <= n <= ROUNDS && FixpointAfter(pass, source, n) {
      assert Iterate(pass, source, n) == Iterate(pass, pass(source).value, n - 1);
      SettleReaches(pass, pass(source).value, ROUNDS, n - 1);
    }
  }

  // ---------------------------------------------------------------------------
  // Digests

  datatype Digest = Digest(sha: string, canonical: Option<Bytes>)

  /** `canonical_artifact_digest`: parquet content is hashed in canonical form, anything else as it is. */
  function DigestOf(sha: Bytes -> string, pass: Pass, parquet: bool, content: Bytes): Result<Digest, CanonicalError> {
    if parquet then
      match Canonical(pass, content)
      case Err(e) => Err(e)
      case Ok(c) => Ok(Digest(sha(c), Some(c)))
    else Ok(Digest(sha(content), None))
  }
}
