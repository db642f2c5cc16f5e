/** Shared wrappers: optional values and the ValueError-or-result shape of the stores. */
module Common {
  datatype Option<+T> = None | Some(value: T)

  datatype Result<+T> = Ok(value: T) | Err(message: string)

  function Coalesce<T>(first: Option<T>, second: Option<T>): Option<T> {
    if first.Some? then first else second
  }

  function Min(a: int, b: int): int {
    if a < b then a else b
  }

  function Max(a: int, b: int): int {
    if a < b then b else a
  }

  function Clamp(low: int, value: int, high: int): int {
    Max(low, Min(value, high))
  }

  /** The lexicographic order of SQL row comparison on two integer columns. */
  predicate Before(a: (int, int), b: (int, int)) {
    a.0 < b.0 || (a.0 == b.0 && a.1 < b.1)
  }

  /** The id an ORDER BY key ASC, id ASC LIMIT 1 query returns. */
  ghost predicate IsFirst(ids: set<int>, key: int -> int, first: int) {
    first in ids && forall other :: other in ids && other != first ==> Before((key(first), first), (key(other), other))
  }

  lemma {:induction false} FirstExists(ids: set<int>, key: int -> int)
    requires exists id :: id in ids
    ensures exists first :: IsFirst(ids, key, first)
    decreases ids
  {
    var pick :| pick in ids;
    var rest := ids - {pick};
    assert forall id :: id in ids ==> id == pick || id in rest;
    if forall id :: id !in rest {
      assert IsFirst(ids, key, pick);
    } else {
      FirstExists(rest, key);
      var first :| IsFirst(rest, key, first);
      assert IsFirst(ids, key, if Before((key(pick), pick), (key(first), first)) then pick else first);
    }
  }

  /** Some listing is what an ORDER BY key ASC, id ASC LIMIT n query returns. */
  lemma {:induction false} FirstsExist(ids: set<int>, key: int -> int, n: nat) returns (batch: seq<int>)
    requires n <= |ids|
    ensures |batch| == n && forall i :: 0 <= i < n ==> batch[i] in ids
    ensures forall i, j :: 0 <= i < j < n ==> Before((key(batch[i]), batch[i]), (key(batch[j]), batch[j]))
    ensures forall i, id :: 0 <= i < n && id in ids && id !in batch ==> Before((key(batch[i]), batch[i]), (key(id), id))
  {
    batch := [];
    if !exists id :: id in ids {
      assert ids == {};
    } else if n > 0 {
      FirstExists(ids, key);
      var first :| IsFirst(ids, key, first);
      var rest := FirstsExist(ids - {first}, key, n - 1);
      batch := [first] + rest;
      forall i, j | 0 <= i < j < n
        ensures Before((key(batch[i]), batch[i]), (key(batch[j]), batch[j]))
      {
        assert batch[j] == rest[j - 1] && rest[j - 1] in ids - {first};
        assert i > 0 ==> batch[i] == rest[i - 1];
      }
      forall i, id | 0 <= i < n && id in ids && id !in batch
        ensures Before((key(batch[i]), batch[i]), (key(id), id))
      {
        assert id !in rest && id != first;
      }
    }
  }

  /** ORDER BY id LIMIT 1. */
  predicate IsLeast(ids: set<int>, id: int) {
    id in ids && forall other :: other in ids ==> id <= other
  }

  /** ORDER BY id DESC LIMIT 1. */
  predicate IsGreatest(ids: set<int>, id: int) {
    id in ids && forall other :: other in ids ==> other <= id
  }

  lemma LeastExists(ids: set<int>)
    requires exists id :: id in ids
    ensures exists id :: IsLeast(ids, id)
  {
    FirstExists(ids, _ => 0);
    var first :| IsFirst(ids, _ => 0, first);
    assert IsLeast(ids, first);
  }

  lemma {:induction false} GreatestExists(ids: set<int>)
    requires exists id :: id in ids
    ensures exists id :: IsGreatest(ids, id)
    decreases ids
  {
    var pick :| pick in ids;
    var rest := ids - {pick};
    assert forall id :: id in ids ==> id == pick || id in rest;
    if forall id :: id !in rest {
      assert IsGreatest(ids, pick);
    } else {
      GreatestExists(rest);
      var greatest :| IsGreatest(rest, greatest);
      assert IsGreatest(ids, Max(pick, greatest));
    }
  }

  function Least(ids: set<int>): (id: int)
    requires exists other :: other in ids
    ensures IsLeast(ids, id)
  {
    LeastExists(ids);
    var id :| IsLeast(ids, id);
    id
  }

  function Greatest(ids: set<int>): (id: int)
    requires exists other :: other in ids
    ensures IsGreatest(ids, id)
  {
    GreatestExists(ids);
    var id :| IsGreatest(ids, id);
    id
  }
}
