/** Proof-of-power proofs: how a miner makes one and what a submitter checks.
    SHA3-512 and the two serialisations are parameters. */
module PopProof {

  datatype Json = Null | Str(s: string) | Num(n: real) | Obj(fields: map<string, Json>)

  /** `hash` is SHA3-512 of a text, `dumps` is `json.dumps` with sorted keys, `str` is `str`. */
  datatype Codec = Codec(hash: string -> string, dumps: Json -> string, str: Json -> string)

  type Proof = map<string, Json>

  const FUTURE_SLACK := 60.0
  const MAX_AGE := 600.0

  function Serialize(c: Codec, v: Json): string {
    if v.Obj? then c.dumps(v) else c.str(v)
  }

  function Get(p: Proof, key: string): Json {
    if key in p then p[key] else Null
  }

  /** The proof before its own hash is added. */
  function Body(c: Codec, key: string, data: Json, result: Json, miner: string, elapsed: real, now: real,
          tflops: real, device: string): Proof {
    map[
      "workload_key" := Str(key),
      "workload_hash" := Str(c.hash(Serialize(c, data))),
      "result_hash" := Str(c.hash(Serialize(c, result))),
      "miner_address" := Str(miner),
      "timestamp" := Num(now),
      "computation_time" := Num(elapsed),
      "verification_method" := Str("deterministic"),
      "metadata" := Obj(map[
        "result_size" := Num(|Serialize(c, result)| as real),
        "workload_size" := Num(|Serialize(c, data)| as real),
        "tflops" := Num(tflops),
        "device" := Str(device)])]
  }

  function Generate(c: Codec, key: string, data: Json, result: Json, miner: string, elapsed: real, now: real,
          tflops: real, device: string): Proof {
    var body := Body(c, key, data, result, miner, elapsed, now, tflops, device);
    body["proof_hash" := Str(c.hash(c.dumps(Obj(body))))]
  }

  function WithoutHash(p: Proof): Proof {
    p - {"proof_hash"}
  }

  /** The checks in the order they are made; a stamp that is not a number cannot be compared
      and fails the verification. A missing stamp counts as 0. */
  predicate Verify(c: Codec, p: Proof, data: Json, result: Json, expectedMiner: string, now: real) {
    && p != map[]
    && Get(p, "proof_hash") == Str(c.hash(c.dumps(Obj(WithoutHash(p)))))
    && Get(p, "workload_hash") == Str(c.hash(Serialize(c, data)))
    && Get(p, "result_hash") == Str(c.hash(Serialize(c, result)))
    && MinerFits(p, expectedMiner) && InWindow(p, now)
  }

  predicate MinerFits(p: Proof, expectedMiner: string) {
    expectedMiner != "" ==> Get(p, "miner_address") == Str(expectedMiner)
  }

  predicate InWindow(p: Proof, now: real) {
    var stamp := if "timestamp" in p then p["timestamp"] else Num(0.0);
    stamp.Num? && stamp.n <= now + FUTURE_SLACK && stamp.n >= now - MAX_AGE
  }

  /** `f` tells these two apart, if they differ. */
  ghost predicate Separates<A, B>(f: A -> B, x: A, y: A) {
    f(x) == f(y) ==> x == y
  }

  lemma GeneratedBody(c: Codec, key: string, data: Json, result: Json, miner: string, elapsed: real, now: real,
          tflops: real, device: string)
    ensures WithoutHash(Generate(c, key, data, result, miner, elapsed, now, tflops, device))
         == Body(c, key, data, result, miner, elapsed, now, tflops, device)
  {
  }

  /** A generated proof verifies for the same workload, result and miner (or any miner when none is
      expected) at exactly the times from 60 seconds before to 600 seconds after its stamp. */
  lemma GenerateThenVerify(c: Codec, key: string, data: Json, result: Json, miner: string, elapsed: real,
          stamp: real, tflops: real, device: string, expected: string, now: real)
    requires expected == "" || expected == miner
    ensures Verify(c, Generate(c, key, data, result, miner, elapsed, stamp, tflops, device), data, result, expected, now)
            <==> stamp - FUTURE_SLACK <= now <= stamp + MAX_AGE
  {
    GeneratedBody(c, key, data, result, miner, elapsed, stamp, tflops, device);
  }

  /** Unless the serialisations collide, a proof made for one workload, result and miner is accepted for others
      exactly when both serialise alike, the miner is the expected one if one is expected, and the stamp is
      inside the window. */
  lemma AcceptedExactlyWhen(c: Codec, key: string, data: Json, result: Json, miner: string, elapsed: real,
          stamp: real, tflops: real, device: string,
                            data': Json, result': Json, expected: string, now: real)
    requires Separates(c.hash, Serialize(c, data), Serialize(c, data')) && Separates(c.hash, Serialize(c, result), Serialize(c, result'))
    ensures Verify(c, Generate(c, key, data, result, miner, elapsed, stamp, tflops, device), data', result', expected, now)
            <==> && Serialize(c, data) == Serialize(c, data') && Serialize(c, result) == Serialize(c, result')
                 && (expected == "" || expected == miner)
                 && stamp - FUTURE_SLACK <= now <= stamp + MAX_AGE
  {
    GeneratedBody(c, key, data, result, miner, elapsed, stamp, tflops, device);
    var p := Generate(c, key, data, result, miner, elapsed, stamp, tflops, device);
    assert Get(p, "workload_hash") == Str(c.hash(Serialize(c, data)));
    assert Get(p, "result_hash") == Str(c.hash(Serialize(c, result)));
  }

  /** Nobody can change a proof and keep its hash: whatever passes the hash check under the `proof_hash` of
      another proof that passes it is that proof, unless the two collide. */
  lemma TamperingIsDetected(c: Codec, p: Proof, q: Proof, data: Json, result: Json, miner: string, now: real,
          data': Json, result': Json, miner': string, now': real)
    requires Separates(c.dumps, Obj(WithoutHash(p)), Obj(WithoutHash(q)))
    requires Separates(c.hash, c.dumps(Obj(WithoutHash(p))), c.dumps(Obj(WithoutHash(q))))
    requires Verify(c, p, data, result, miner, now) && Verify(c, q, data', result', miner', now')
    requires Get(p, "proof_hash") == Get(q, "proof_hash")
    ensures p == q
  {
    assert c.dumps(Obj(WithoutHash(p))) == c.dumps(Obj(WithoutHash(q)));
    assert Obj(WithoutHash(p)) == Obj(WithoutHash(q));
    assert p == WithoutHash(p)["proof_hash" := p["proof_hash"]];
    assert q == WithoutHash(q)["proof_hash" := q["proof_hash"]];
  }

  /** A proof serves one workload and one result only, and one miner if a miner is expected, unless the
      serialisations collide. */
  lemma ProofServesOneWorkload(c: Codec, p: Proof, data: Json, result: Json, miner: string, now: real,
          data': Json, result': Json, miner': string, now': real)
    requires Separates(c.hash, Serialize(c, data), Serialize(c, data')) && Separates(c.hash, Serialize(c, result), Serialize(c, result'))
    requires Verify(c, p, data, result, miner, now) && Verify(c, p, data', result', miner', now')
    ensures Serialize(c, data) == Serialize(c, data') && Serialize(c, result) == Serialize(c, result')
    ensures miner == "" || miner' == "" || miner == miner'
    ensures -(FUTURE_SLACK + MAX_AGE) <= now' - now <= FUTURE_SLACK + MAX_AGE
  {
    assert Get(p, "workload_hash") == Str(c.hash(Serialize(c, data)));
    assert Get(p, "result_hash") == Str(c.hash(Serialize(c, result)));
  }

  /** A proof that was accepted once is accepted again exactly for what serialises alike, inside its window. */
  lemma AcceptedAgainExactly(c: Codec, p: Proof, data: Json, result: Json, miner: string, now: real,
          data': Json, result': Json, miner': string, now': real)
    requires Separates(c.hash, Serialize(c, data), Serialize(c, data')) && Separates(c.hash, Serialize(c, result), Serialize(c, result'))
    requires Verify(c, p, data, result, miner, now)
    ensures Verify(c, p, data', result', miner', now')
            <==> && Serialize(c, data) == Serialize(c, data') && Serialize(c, result) == Serialize(c, result')
                 && MinerFits(p, miner') && InWindow(p, now')
  {
    assert Get(p, "workload_hash") == Str(c.hash(Serialize(c, data)));
    assert Get(p, "result_hash") == Str(c.hash(Serialize(c, result)));
  }

  // ----- proofs field by field -----

  /** Dictionaries are serialised by `json.dumps`, everything else by `str`. */
  lemma SerializedExactly(c: Codec, v: Json)
    ensures Serialize(c, v) == match v case Obj(_) => c.dumps(v) case _ => c.str(v)
  {
  }

  /** The eight fields that the proof's hash covers. */
  lemma CoveredExactly(c: Codec, key: string, data: Json, result: Json, miner: string, elapsed: real, now: real, tflops: real,
          device: string)
    ensures var p := Body(c, key, data, result, miner, elapsed, now, tflops, device);
            && p.Keys == {"workload_key", "workload_hash", "result_hash", "miner_address", "timestamp", "computation_time",
                          "verification_method", "metadata"}
            && p["workload_key"] == Str(key) && p["miner_address"] == Str(miner) && p["timestamp"] == Num(now)
            && p["workload_hash"] == Str(c.hash(Serialize(c, data))) && p["result_hash"] == Str(c.hash(Serialize(c, result)))
            && p["computation_time"] == Num(elapsed) && p["verification_method"] == Str("deterministic")
            && p["metadata"] == Obj(map["device" := Str(device), "tflops" := Num(tflops),
                                        "workload_size" := Num(|Serialize(c, data)| as real), "result_size" := Num(|Serialize(c, result)| as real)])
  {
    hide Serialize;
    var a, b, d, e := Num(|Serialize(c, result)| as real), Num(|Serialize(c, data)| as real), Num(tflops), Str(device);
    assert map["result_size" := a, "workload_size" := b, "tflops" := d, "device" := e]
        == map["device" := e, "tflops" := d, "workload_size" := b, "result_size" := a];
  }

  /** A generated proof is those fields and the hash of them. */
  lemma {:induction false} GeneratedExactly(c: Codec, key: string, data: Json, result: Json, miner: string, elapsed: real, now: real,
          tflops: real, device: string)
    ensures var p, body := Generate(c, key, data, result, miner, elapsed, now, tflops, device), Body(c, key, data, result, miner, elapsed, now, tflops, device);
            && p.Keys == body.Keys + {"proof_hash"} && "proof_hash" !in body && (forall k | k in body :: p[k] == body[k])
            && p["proof_hash"] == Str(c.hash(c.dumps(Obj(body))))
  {
    hide Body;
    CoveredExactly(c, key, data, result, miner, elapsed, now, tflops, device);
  }

  /** A proof verifies exactly if it is not empty, its own hash is that of its other fields, its two hashes are those of
      the work and the result, its miner is the expected one if one is expected, and its stamp, or 0 if it has none, is a
      number at most 60 seconds ahead and 600 behind. */
  lemma {:induction false} VerifiedExactly(c: Codec, p: Proof, data: Json, result: Json, miner: string, now: real)
    ensures Verify(c, p, data, result, miner, now)
            <==> && "proof_hash" in p && p["proof_hash"] == Str(c.hash(c.dumps(Obj(map k | k in p && k != "proof_hash" :: p[k]))))
                 && "workload_hash" in p && p["workload_hash"] == Str(c.hash(Serialize(c, data)))
                 && "result_hash" in p && p["result_hash"] == Str(c.hash(Serialize(c, result)))
                 && (miner == "" || ("miner_address" in p && p["miner_address"] == Str(miner)))
                 && (if "timestamp" !in p then -60.0 <= now <= 600.0
                     else p["timestamp"].Num? && p["timestamp"].n - 60.0 <= now <= p["timestamp"].n + 600.0)
  {
    assert WithoutHash(p) == map k | k in p && k != "proof_hash" :: p[k];
  }
}
