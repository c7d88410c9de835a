/** The exporter's parsers fill a fresh Go `map[string]string` with a run of
    `m[k] = v` assignments and later read it with `m[k]`, which gives "" for
    a missing key. `Assign` is that run of assignments; its lemmas say the
    last assignment to a key wins and that assignments to other keys do not
    matter for it. */
module GoMap {

  /** One assignment `m[key] = value`. */
  type Pair = (string, string)

  /** Go's `m[k]`: the value stored under `k`, or "" when there is none. */
  function Get(m: map<string, string>, k: string): string {
    if k in m then m[k] else ""
  }

  /** A fresh map after the assignments `m[p.0] = p.1`, in order. */
  function Assign(pairs: seq<Pair>): (m: map<string, string>)
    ensures forall k :: k in m ==> exists i :: 0 <= i < |pairs| && pairs[i] == (k, m[k])
  {
    if |pairs| == 0 then map[]
    else
      var init := pairs[..|pairs| - 1];
      var m := Assign(init);
      assert forall i :: 0 <= i < |init| ==> pairs[i] == init[i];
      m[pairs[|pairs| - 1].0 := pairs[|pairs| - 1].1]
  }

  /** The last assignment to a key decides its value. */
  lemma {:induction false} AssignLastWins(pairs: seq<Pair>, i: nat)
    requires i < |pairs|
    requires forall j :: i < j < |pairs| ==> pairs[j].0 != pairs[i].0
    ensures pairs[i].0 in Assign(pairs)
    ensures Assign(pairs)[pairs[i].0] == pairs[i].1
    decreases |pairs|
  {
    if i < |pairs| - 1 {
      var init := pairs[..|pairs| - 1];
      assert init[i] == pairs[i];
      AssignLastWins(init, i);
    }
  }

  /** The assignments to `k`, in order. */
  function KeyPairs(pairs: seq<Pair>, k: string): (r: seq<Pair>)
    ensures forall j :: 0 <= j < |r| ==> r[j].0 == k
    ensures |r| <= |pairs|
  {
    if |pairs| == 0 then []
    else KeyPairs(pairs[..|pairs| - 1], k) + (if pairs[|pairs| - 1].0 == k then [pairs[|pairs| - 1]] else [])
  }

  lemma {:induction false} KeyPairsAppend(a: seq<Pair>, b: seq<Pair>, k: string)
    ensures KeyPairs(a + b, k) == KeyPairs(a, k) + KeyPairs(b, k)
    decreases |b|
  {
    if |b| == 0 {
      assert a + b == a;
    } else {
      KeyPairsAppend(a, b[..|b| - 1], k);
      assert (a + b)[..|a + b| - 1] == a + b[..|b| - 1];
    }
  }

  /** What `m[k]` reads after the assignments depends only on the assignments
      to `k`: assignments to other keys may be added, dropped or reordered
      freely. */
  lemma {:induction false} AssignOnlyKeyMatters(pairs: seq<Pair>, k: string)
    ensures (k in Assign(pairs)) == (k in Assign(KeyPairs(pairs, k)))
    ensures Get(Assign(pairs), k) == Get(Assign(KeyPairs(pairs, k)), k)
    decreases |pairs|
  {
    if |pairs| > 0 {
      var init := pairs[..|pairs| - 1];
      var last := pairs[|pairs| - 1];
      AssignOnlyKeyMatters(init, k);
      if last.0 == k {
        var kp := KeyPairs(init, k) + [last];
        assert KeyPairs(pairs, k) == kp;
        assert kp[..|kp| - 1] == KeyPairs(init, k);
      } else {
        assert KeyPairs(pairs, k) == KeyPairs(init, k) + [];
        assert KeyPairs(init, k) + [] == KeyPairs(init, k);
      }
    }
  }

  /** Two runs of assignments that assign `k` alike read alike at `k`. */
  lemma SameKeyPairsSameValue(p: seq<Pair>, q: seq<Pair>, k: string)
    requires KeyPairs(p, k) == KeyPairs(q, k)
    ensures Get(Assign(p), k) == Get(Assign(q), k)
  {
    AssignOnlyKeyMatters(p, k);
    AssignOnlyKeyMatters(q, k);
  }

  /** Assignments to other keys, made after the fact, leave `m[k]` as it was. */
  lemma {:induction false} AssignOthersAfter(p: seq<Pair>, q: seq<Pair>, k: string)
    requires forall j :: 0 <= j < |q| ==> q[j].0 != k
    ensures (k in Assign(p + q)) == (k in Assign(p))
    ensures Get(Assign(p + q), k) == Get(Assign(p), k)
    decreases |q|
  {
    if |q| == 0 {
      assert p + q == p;
    } else {
      AssignOthersAfter(p, q[..|q| - 1], k);
      assert (p + q)[..|p + q| - 1] == p + q[..|q| - 1];
    }
  }
}
