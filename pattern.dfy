/** Byte patterns with wildcards, and the forward search the plugin asks the
    host for (`ida_bytes.find_bytes` with `SEARCH_DOWN`). */
module Pattern {
  import opened Common

  /** One position of a signature: an exact byte or the wildcard `??`. */
  datatype PatByte = Any | Exact(b: Byte)

  predicate ByteMatches(p: PatByte, b: Byte) {
    p.Any? || p.b == b
  }

  /** The pattern lies entirely inside `mem` from offset `k` on and every
      position matches. */
  predicate MatchesAt(mem: seq<Byte>, pat: seq<PatByte>, k: nat) {
    && k + |pat| <= |mem|
    && forall i :: 0 <= i < |pat| ==> ByteMatches(pat[i], mem[k + i])
  }

  /** The lowest offset at or after `k` where `pat` matches, or None (the
      host's BADADDR) when there is none. */
  function FindFrom(mem: seq<Byte>, pat: seq<PatByte>, k: nat): (r: Option<nat>)
    ensures r.Some? ==> k <= r.value && MatchesAt(mem, pat, r.value)
    ensures r.Some? ==> forall j :: k <= j < r.value ==> !MatchesAt(mem, pat, j)
    ensures r.None? ==> forall j :: k <= j ==> !MatchesAt(mem, pat, j)
    decreases |mem| - k
  {
    if k + |pat| > |mem| then None
    else if MatchesAt(mem, pat, k) then Some(k)
    else FindFrom(mem, pat, k + 1)
  }

  /** Two patterns that match one after the other match as one. */
  lemma MatchesConcat(mem: seq<Byte>, a: seq<PatByte>, b: seq<PatByte>, k: nat)
    requires MatchesAt(mem, a, k) && MatchesAt(mem, b, k + |a|)
    ensures MatchesAt(mem, a + b, k)
  {
    forall i | 0 <= i < |a + b|
      ensures ByteMatches((a + b)[i], mem[k + i])
    {
      if i >= |a| {
        assert (a + b)[i] == b[i - |a|];
        assert mem[k + i] == mem[(k + |a|) + (i - |a|)];
      }
    }
  }

  /** A match inside a slice of `mem` is a match in `mem`. */
  lemma MatchesInSlice(mem: seq<Byte>, start: nat, end: nat, pat: seq<PatByte>)
    requires start <= end <= |mem| && MatchesAt(mem[start .. end], pat, 0)
    ensures MatchesAt(mem, pat, start)
  {
    forall i | 0 <= i < |pat|
      ensures ByteMatches(pat[i], mem[start + i])
    {
      assert mem[start .. end][i] == mem[start + i];
    }
  }
}
