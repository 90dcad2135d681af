/** Vocabulary shared by the models: options, identifiers, clocks and contexts. */
module Common {

  datatype Option<+T> = None | Some(value: T)

  /** Identifiers, cache keys, e-mail addresses and tokens are Go strings. */
  type Id = string

  /** Instants and durations are whole nanoseconds, as in package time. */
  type Time = int

  const SECOND: Time := 1_000_000_000

  /**
   * A `context.Context` as one call sees it. The call looks at the context several
   * times; the looks are numbered from 0. A context that is cancelled stays cancelled,
   * so all that matters is the number of the first look that finds it cancelled.
   */
  datatype Ctx = Background | CancelledFrom(look: nat) {
    predicate Live(look: nat) {
      Background? || look < this.look
    }
  }

  /** The elements of a sequence, as a set. */
  function Elements<T>(s: seq<T>): set<T> {
    set x | x in s
  }

  predicate Distinct<T(==)>(s: seq<T>) {
    forall i, j :: 0 <= i < j < |s| ==> s[i] != s[j]
  }

  /** A sequence without repetitions has as many elements as positions. */
  lemma {:induction false} DistinctCardinality<T>(s: seq<T>)
    requires Distinct(s)
    ensures |Elements(s)| == |s|
  {
    if s == [] {
      assert Elements(s) == {};
    } else {
      var last := s[|s| - 1];
      DistinctCardinality(s[..|s| - 1]);
      assert last !in s[..|s| - 1];
      assert Elements(s) == Elements(s[..|s| - 1]) + {last};
    }
  }

  lemma SubsetCardinality<T>(a: set<T>, b: set<T>)
    requires a <= b
    ensures |a| <= |b|
    ensures |a| == |b| ==> a == b
  {
    assert b == a + (b - a);
  }

  function RemoveAt<T>(s: seq<T>, i: nat): seq<T>
    requires i < |s|
  {
    s[..i] + s[i + 1..]
  }

  lemma RemoveAtElements<T>(s: seq<T>, i: nat)
    requires i < |s| && Distinct(s)
    ensures forall x :: x in RemoveAt(s, i) <==> x in s && x != s[i]
  {
    forall x | x in s && x != s[i] ensures x in RemoveAt(s, i) {
      var j :| 0 <= j < |s| && s[j] == x;
      assert RemoveAt(s, i)[if j < i then j else j - 1] == x;
    }
  }

  lemma RemoveAtTail<T>(s: seq<T>, i: nat)
    requires i < |s|
    ensures RemoveAt(s, i) == if i == 0 then s[1..] else [s[0]] + RemoveAt(s[1..], i - 1)
  {
  }

  lemma AddThenRemove<K, V>(m: map<K, V>, k: K, v: V)
    requires k !in m
    ensures m[k := v] - {k} == m
  {
  }

  lemma RemoveThenAdd<K, V>(m: map<K, V>, k: K)
    requires k in m
    ensures (m - {k})[k := m[k]] == m
  {
  }

  lemma AddAndRemove<K, V>(m: map<K, V>, k: K, v: V, x: K)
    requires k != x
    ensures m[k := v] - {x} == (m - {x})[k := v]
  {
  }

  lemma RemoveAbsent<K, V>(m: map<K, V>, k: K)
    requires k !in m
    ensures m - {k} == m
  {
  }
}
