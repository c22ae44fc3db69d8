/** The state chain over the local SHA-256: its digests are those of FIPS 180-4. */
module StateDigests {
  import opened Basics
  import opened Keys
  import opened StateRecord
  import opened StateChain
  import opened StateRuns
  import Sha256

  ghost predicate UsesSha256(c: Crypto) {
    forall x :: c.sha256(x) == Sha256.Digest(x)
  }

  /** With the local routine as the digest, every accepted record names the SHA-256 of the bytes before
      it, the head's digest is the SHA-256 of its record's bytes, and an anchor that of the first. */
  lemma ChainOfSha256(c: Crypto, start: Trust, inputs: seq<Input>)
    requires UsesSha256(c) && Fresh(start)
    ensures var h, t := History(c, start, inputs), Run(c, start, inputs);
            (forall i :: 0 < i < |h| ==> Decodable(h[i]) && Rec(h[i]).prev == Some(Sha256.Digest(h[i - 1])))
            && (t.head.Some? ==> t.head.value.digest == Sha256.Digest(RecordToBytes(t.head.value.record)))
            && (t.anchor.Some? && h != [] ==> t.anchor.value == Sha256.Digest(h[0]))
  {
    hide Run, History, RecordFromBytes, RecordToBytes, AllDelivered, Sha256.Digest;
    ChainInvariant(c, start, inputs);
    var h := History(c, start, inputs);
    if Run(c, start, inputs).head.Some? {
      HeadDigestIsRecordDigest(c, start, inputs);
    }
    forall i | 0 < i < |h|
      ensures Decodable(h[i]) && Rec(h[i]).prev == Some(Sha256.Digest(h[i - 1]))
    {
      assert Link(c, h[i - 1], h[i]);
    }
  }
}
