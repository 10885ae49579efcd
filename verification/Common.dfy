/** Types shared by the models of the tunnel manager and the wire code. */
module Common {

  /** An octet. */
  type byte = b: int | 0 <= b < 256

  datatype Option<+T> = None | Some(value: T)

  function Min(a: int, b: int): int {
    if a <= b then a else b
  }

  function Max(a: int, b: int): int {
    if a >= b then a else b
  }

  ghost predicate NoDuplicates<T(!new)>(q: seq<T>) {
    forall i, j :: 0 <= i < j < |q| ==> q[i] != q[j]
  }

  function Elements<T>(q: seq<T>): set<T> {
    set x | x in q
  }

  function Flatten<T>(parts: seq<seq<T>>): seq<T> {
    if parts == [] then [] else parts[0] + Flatten(parts[1..])
  }

  lemma {:induction false} FlattenSnoc<T>(parts: seq<seq<T>>, last: seq<T>)
    ensures Flatten(parts + [last]) == Flatten(parts) + last
  {
    if parts == [] {
      assert Flatten([last]) == last + Flatten([]) == last;
      assert parts + [last] == [last];
    } else {
      FlattenSnoc(parts[1..], last);
      assert (parts + [last])[1..] == parts[1..] + [last];
    }
  }

  /** Entries once made stay. */
  ghost predicate Kept<K(!new), V(!new)>(before: map<K, V>, after: map<K, V>) {
    before.Keys <= after.Keys && forall k {:trigger after[k]} :: k in before ==> after[k] == before[k]
  }

  /** Each state follows the one before. */
  ghost predicate IsPath<S(!new)>(states: seq<S>, next: (S, S) -> bool) {
    |states| > 0 && forall i :: 0 <= i < |states| - 1 ==> next(states[i], states[i + 1])
  }

  /** A path that ends where another begins goes on along it. */
  lemma JoinPaths<S(!new)>(a: seq<S>, b: seq<S>, next: (S, S) -> bool)
    requires IsPath(a, next) && IsPath(b, next) && a[|a| - 1] == b[0]
    ensures IsPath(a + b[1..], next)
  {
    var r := a + b[1..];
    forall i | 0 <= i < |r| - 1
      ensures next(r[i], r[i + 1])
    {
      if i < |a| - 1 {
        assert r[i] == a[i] && r[i + 1] == a[i + 1];
      } else {
        assert r[i] == b[i - |a| + 1] && r[i + 1] == b[i - |a| + 2];
      }
    }
  }

  /** A socket of the TCP stack. */
  type Handle = nat
}
