/** The sandboxed invoice checksum (apps/api/src/workers/invoice.sandboxed.ts), with the hash function left open. */
module Invoices {
  import opened Prelude

  const HASH_ROUNDS: nat := 10000

  /** A streaming hash object: updates accumulate, the digest hashes everything fed so far. */
  class StreamingHash {
    const hash: string -> string
    var fed: string

    constructor (hash: string -> string)
      ensures this.hash == hash && fed == ""
    {
      this.hash, fed := hash, "";
    }

    method Update(data: string)
      modifies this
      ensures fed == old(fed) + data
    {
      fed := fed + data;
    }

    method Digest() returns (digest: string)
      ensures digest == hash(fed)
    {
      digest := hash(fed);
    }
  }

  /** `rounds`-fold iterate of `d -> hash(d + text)`. */
  function Iterate(hash: string -> string, text: string, rounds: nat, digest: string): string {
    if rounds == 0 then digest else hash(Iterate(hash, text, rounds - 1, digest) + text)
  }

  function Checksum(hash: string -> string, invoiceId: string, lines: seq<string>, rounds: nat): string {
    Iterate(hash, Concat(lines), rounds, hash(invoiceId))
  }

  lemma {:induction false} ConcatAppend(a: seq<string>, b: seq<string>)
    ensures Concat(a + b) == Concat(a) + Concat(b)
  {
    if a == [] {
      assert a + b == b;
    } else {
      DropWithin(a, b, 1);
      ConcatAppend(a[1..], b);
      ConcatAssoc(a[0], Concat(a[1..]), Concat(b));
    }
  }

  /** The digests of a rendering: the id's own first, then each the hash of the one before and the text. */
  predicate Digests(hash: string -> string, invoiceId: string, text: string, ds: seq<string>) {
    && ds != [] && ds[0] == hash(invoiceId)
    && forall k :: 0 <= k < |ds| - 1 ==> ds[k + 1] == hash(ds[k] + text)
  }

  /** For any number of rounds there is one such chain, and it ends in the checksum. */
  lemma {:induction false} ChainEnds(hash: string -> string, invoiceId: string, lines: seq<string>, ds: seq<string>)
    requires Digests(hash, invoiceId, Concat(lines), ds)
    ensures ds[|ds| - 1] == Checksum(hash, invoiceId, lines, |ds| - 1)
    decreases |ds|
  {
    if |ds| > 1 {
      var before := ds[..|ds| - 1];
      assert forall k :: 0 <= k < |before| ==> before[k] == ds[k];
      ChainEnds(hash, invoiceId, lines, before);
      assert ds[|before| - 1 + 1] == hash(ds[|before| - 1] + Concat(lines));
    }
  }

  lemma {:induction false} SomeChain(hash: string -> string, invoiceId: string, text: string, rounds: nat)
      returns (ds: seq<string>)
    ensures Digests(hash, invoiceId, text, ds) && |ds| == rounds + 1
  {
    ds := [hash(invoiceId)];
    if rounds > 0 {
      var before := SomeChain(hash, invoiceId, text, rounds - 1);
      ds := before + [hash(before[rounds - 1] + text)];
    }
  }

  method RenderInvoice(hash: string -> string, invoiceId: string, lines: seq<string>) returns (checksum: string)
    ensures forall ds :: Digests(hash, invoiceId, Concat(lines), ds) && |ds| == 10001 ==> checksum == ds[10000]
    ensures checksum == Checksum(hash, invoiceId, lines, HASH_ROUNDS)
  {
    var first := new StreamingHash(hash);
    first.Update(invoiceId);
    assert first.fed == invoiceId;
    var digest := first.Digest();
    for round := 0 to HASH_ROUNDS
      invariant digest == Checksum(hash, invoiceId, lines, round)
    {
      var h := new StreamingHash(hash);
      h.Update(digest);
      for i := 0 to |lines|
        invariant fresh(h) && h.hash == hash && h.fed == digest + Concat(lines[..i])
      {
        assert lines[..i + 1] == lines[..i] + [lines[i]];
        ConcatAppend(lines[..i], [lines[i]]);
        assert Concat([lines[i]]) == lines[i];
        ConcatAssoc(digest, Concat(lines[..i]), lines[i]);
        h.Update(lines[i]);
      }
      assert lines[..|lines|] == lines;
      digest := h.Digest();
    }
    checksum := digest;
    forall ds | Digests(hash, invoiceId, Concat(lines), ds) && |ds| == 10001 ensures checksum == ds[10000] {
      ChainEnds(hash, invoiceId, lines, ds);
    }
  }

  /** Where one line ends and the next begins leaves no mark on the checksum, for any hash and number of rounds. */
  lemma LineBoundariesInvisible(hash: string -> string, invoiceId: string, before: seq<string>, a: string, b: string,
                                after: seq<string>, rounds: nat)
    ensures Checksum(hash, invoiceId, before + [a + b] + after, rounds)
         == Checksum(hash, invoiceId, before + [a, b] + after, rounds)
  {
    ConcatAppend(before + [a + b], after);
    ConcatAppend(before, [a + b]);
    ConcatAppend(before + [a, b], after);
    ConcatAppend(before, [a, b]);
    assert [a, b][1..] == [b] && Concat([b]) == b + "" == b;
    assert Concat([a, b]) == a + b == Concat([a + b]);
  }

  /** Running some rounds and then the rest is running them all. */
  lemma {:induction false} RoundsCompose(hash: string -> string, text: string, m: nat, n: nat, digest: string)
    ensures Iterate(hash, text, m + n, digest) == Iterate(hash, text, n, Iterate(hash, text, m, digest))
  {
    if n > 0 {
      RoundsCompose(hash, text, m, n - 1, digest);
    }
  }
}
