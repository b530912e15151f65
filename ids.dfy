/** Record identifiers handed out by the database. The model's stores number
    their records and spell the n-th identifier `"c" + n`; the only property the
    handlers rely on is that a new identifier is unlike every earlier one. */
module Ids {
  import opened Text
  import opened Seqs

  function IdFor(n: nat): (id: string)
    ensures |id| >= 2 && id[0] == 'c'
  {
    "c" + NatToString(n)
  }

  lemma IdForInjective(a: nat, b: nat)
    requires IdFor(a) == IdFor(b)
    ensures a == b
  {
    assert IdFor(a)[1..] == NatToString(a);
    assert IdFor(b)[1..] == NatToString(b);
    NatToStringInjective(a, b);
  }

  /** The identifiers of `rows` are pairwise different, and none of them is one
      the store will hand out from `next` on. */
  ghost predicate IssuedBelow<T>(rows: seq<T>, key: T -> string, next: nat) {
    && DistinctBy(rows, key)
    && (forall i, k :: 0 <= i < |rows| && next <= k ==> key(rows[i]) != IdFor(k))
  }

  /** Appending a row with the next identifier keeps identifiers unique. */
  lemma AppendFresh<T>(rows: seq<T>, key: T -> string, next: nat, row: T)
    requires IssuedBelow(rows, key, next) && key(row) == IdFor(next)
    ensures IssuedBelow(rows + [row], key, next + 1)
  {
    var rows' := rows + [row];
    forall i, k | 0 <= i < |rows'| && next + 1 <= k ensures key(rows'[i]) != IdFor(k) {
      if i == |rows| {
        if IdFor(next) == IdFor(k) {
          IdForInjective(next, k);
        }
      } else {
        assert rows'[i] == rows[i];
      }
    }
    forall i, j | 0 <= i < |rows'| && 0 <= j < |rows'| && i != j ensures key(rows'[i]) != key(rows'[j]) {
      if i == |rows| {
        assert rows'[j] == rows[j];
      } else if j == |rows| {
        assert rows'[i] == rows[i];
      } else {
        assert rows'[i] == rows[i] && rows'[j] == rows[j];
      }
    }
  }
}
