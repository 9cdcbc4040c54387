/** A map written by a sequence of updates, one per item, where a later
    write of a key replaces an earlier one. */
module Overwrites {
  import opened Wrappers

  /** The map after upd has been applied to the first n items in order. */
  function Apply<K, V, T>(items: seq<T>, n: nat, m: map<K, V>, upd: (map<K, V>, T) -> map<K, V>): map<K, V>
    requires n <= |items|
  {
    if n == 0 then m else upd(Apply(items, n - 1, m, upd), items[n - 1])
  }

  /** One update sets key to val when it hits it, and otherwise leaves the
      key as it was. */
  ghost predicate Sets<K, V>(after: map<K, V>, before: map<K, V>, key: K, hit: bool, val: V)
  {
    if hit then key in after && after[key] == val
    else (key in after <==> key in before) && (key in before ==> after[key] == before[key])
  }

  /** The index of the last of the first n items that hit. */
  function LastHit<T>(items: seq<T>, n: nat, hit: T -> bool): (k: Option<nat>)
    requires n <= |items|
    ensures k.Some? ==> k.value < n && hit(items[k.value]) && forall j :: k.value < j < n ==> !hit(items[j])
    ensures k.None? ==> forall j :: 0 <= j < n ==> !hit(items[j])
  {
    if n == 0 then None
    else if hit(items[n - 1]) then Some(n - 1)
    else LastHit(items, n - 1, hit)
  }

  /** The last write wins: the key holds the value of the last item that
      hits it, and keeps its old entry when none does. */
  lemma {:induction false} LastWriteWins<K, V, T>(items: seq<T>, n: nat, m: map<K, V>, upd: (map<K, V>, T) -> map<K, V>,
                                                  key: K, hit: T -> bool, val: T -> V)
    requires n <= |items|
    requires forall d: map<K, V>, s: T :: Sets(upd(d, s), d, key, hit(s), val(s))
    ensures var out := Apply(items, n, m, upd);
      match LastHit(items, n, hit)
      case Some(k) => key in out && out[key] == val(items[k])
      case None => (key in out <==> key in m) && (key in m ==> out[key] == m[key])
  {
    if n > 0 {
      LastWriteWins(items, n - 1, m, upd, key, hit, val);
      assert Sets(upd(Apply(items, n - 1, m, upd), items[n - 1]), Apply(items, n - 1, m, upd), key, hit(items[n - 1]), val(items[n - 1]));
    }
  }
}
