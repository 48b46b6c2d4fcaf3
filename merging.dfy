/** The `foreach ($new as $version => $data) $datas[$version] = $data;` pattern the
    builder uses to collect the entries of several refs into one project map. */
module Merging {

  /** Assigning every entry of `ms[0]`, then of `ms[1]`, ... into an initially empty map. */
  function MergeAll<V>(ms: seq<map<string, V>>): (r: map<string, V>)
    ensures forall k :: k in r <==> exists i :: 0 <= i < |ms| && k in ms[i]
  {
    if ms == [] then map[]
    else
      var front := MergeAll(ms[..|ms| - 1]);
      assert forall i | 0 <= i < |ms| - 1 :: ms[..|ms| - 1][i] == ms[i];
      front + ms[|ms| - 1]
  }

  /** Last write wins: a key takes the value of the last map that has it. */
  lemma {:induction false} LastWriteWins<V>(ms: seq<map<string, V>>, k: string, j: nat)
    requires j < |ms| && k in ms[j]
    requires forall i :: j < i < |ms| ==> k !in ms[i]
    ensures k in MergeAll(ms) && MergeAll(ms)[k] == ms[j][k]
  {
    if j < |ms| - 1 {
      var front := ms[..|ms| - 1];
      assert front[j] == ms[j];
      LastWriteWins(front, k, j);
    }
  }

  /** Merging two runs of maps is merging the merges: branches first, then tags. */
  lemma {:induction false} MergeAllAppend<V>(a: seq<map<string, V>>, b: seq<map<string, V>>)
    ensures MergeAll(a + b) == MergeAll(a) + MergeAll(b)
  {
    if b != [] {
      var front := b[..|b| - 1];
      var last := b[|b| - 1];
      assert (a + b)[..|a + b| - 1] == a + front;
      assert (a + b)[|a + b| - 1] == last;
      MergeAllAppend(a, front);
      calc {
        MergeAll(a + b);
        MergeAll(a + front) + last;
        (MergeAll(a) + MergeAll(front)) + last;
        { UnionAssociative(MergeAll(a), MergeAll(front), last); }
        MergeAll(a) + (MergeAll(front) + last);
        MergeAll(a) + MergeAll(b);
      }
    } else {
      assert a + b == a;
    }
  }

  lemma UnionAssociative<V>(x: map<string, V>, y: map<string, V>, z: map<string, V>)
    ensures (x + y) + z == x + (y + z)
  {
  }

  /** A later map overrides an earlier one exactly on its own keys: every entry of
      `b` is in the merge, and an entry of `a` survives unless `b` has its key. */
  lemma UpsertKeepsOthers<V>(a: map<string, V>, b: map<string, V>)
    ensures MergeAll([a, b]).Keys == a.Keys + b.Keys
    ensures forall k | k in b :: MergeAll([a, b])[k] == b[k]
    ensures forall k | k in a && k !in b :: MergeAll([a, b])[k] == a[k]
  {
    assert [a, b][..1] == [a];
    assert [a][..0] == [];
  }
}
