/**
  Accounts of a first-in first-out buffer that may lose its oldest entries. Everything
  ever added is, in order, a settled prefix (each entry kept or lost) and the live rest.
 */
module Ledger {
  datatype Fate = Kept | Lost

  /** The settled entries with fate `f`, in order. */
  function Select<T>(xs: seq<T>, fates: seq<Fate>, f: Fate): seq<T>
    requires |fates| <= |xs|
  {
    if fates == [] then [] else
      var n := |fates| - 1;
      Select(xs, fates[..n], f) + if fates[n] == f then [xs[n]] else []
  }

  /** `live` is what was added last; the rest was kept or lost as `fates` says. */
  ghost predicate Accounts<T>(added: seq<T>, fates: seq<Fate>, kept: seq<T>, lost: seq<T>, live: seq<T>) {
    && |fates| + |live| == |added|
    && added[|fates|..] == live
    && kept == Select(added, fates, Kept)
    && lost == Select(added, fates, Lost)
  }

  ghost predicate Accounted<T>(added: seq<T>, kept: seq<T>, lost: seq<T>, live: seq<T>) {
    exists fates :: Accounts(added, fates, kept, lost, live)
  }

  lemma {:induction false} SelectSizes<T>(xs: seq<T>, fates: seq<Fate>)
    requires |fates| <= |xs|
    ensures |Select(xs, fates, Kept)| + |Select(xs, fates, Lost)| == |fates|
  {
    if fates == [] {
    } else {
      SelectSizes(xs, fates[..|fates| - 1]);
    }
  }

  lemma {:induction false} SelectFromLonger<T>(xs: seq<T>, more: seq<T>, fates: seq<Fate>, f: Fate)
    requires |fates| <= |xs|
    ensures Select(xs + more, fates, f) == Select(xs, fates, f)
  {
    if fates == [] {
    } else {
      SelectFromLonger(xs, more, fates[..|fates| - 1], f);
    }
  }

  lemma {:induction false} SelectMoreFates<T>(xs: seq<T>, fates: seq<Fate>, g: Fate, n: nat, f: Fate)
    requires |fates| + n <= |xs|
    ensures Select(xs, fates + seq(n, _ => g), f) ==
            Select(xs, fates, f) + if f == g then xs[|fates|..|fates| + n] else []
  {
    if n == 0 {
      assert fates + seq(0, _ => g) == fates;
    } else {
      SelectMoreFates(xs, fates, g, n - 1, f);
      var all := fates + seq(n, _ => g);
      assert all[..|all| - 1] == fates + seq(n - 1, _ => g);
      assert all[|all| - 1] == g;
    }
  }

  lemma Start<T>()
    ensures Accounted<T>([], [], [], [])
  {
    assert Accounts<T>([], [], [], [], []);
  }

  lemma Add<T>(added: seq<T>, kept: seq<T>, lost: seq<T>, live: seq<T>, xs: seq<T>)
    requires Accounted(added, kept, lost, live)
    ensures Accounted(added + xs, kept, lost, live + xs)
  {
    var fates :| Accounts(added, fates, kept, lost, live);
    SelectFromLonger(added, xs, fates, Kept);
    SelectFromLonger(added, xs, fates, Lost);
    assert Accounts(added + xs, fates, kept, lost, live + xs);
  }

  /** The oldest live entries leave together, all kept or all lost. */
  lemma Settle<T>(added: seq<T>, kept: seq<T>, lost: seq<T>, live: seq<T>, n: nat, g: Fate)
    requires Accounted(added, kept, lost, live) && n <= |live|
    ensures g == Kept ==> Accounted(added, kept + live[..n], lost, live[n..])
    ensures g == Lost ==> Accounted(added, kept, lost + live[..n], live[n..])
  {
    var fates :| Accounts(added, fates, kept, lost, live);
    var fates' := fates + seq(n, _ => g);
    SelectMoreFates(added, fates, g, n, Kept);
    SelectMoreFates(added, fates, g, n, Lost);
    assert added[|fates|..|fates| + n] == live[..n];
    assert added[|fates'|..] == live[n..];
    assert Accounts(added, fates', if g == Kept then kept + live[..n] else kept,
                    if g == Lost then lost + live[..n] else lost, live[n..]);
  }

  /** What is accounted for adds up, and the live entries are the newest ones. */
  lemma Totals<T>(added: seq<T>, kept: seq<T>, lost: seq<T>, live: seq<T>)
    requires Accounted(added, kept, lost, live)
    ensures |added| == |kept| + |lost| + |live|
    ensures added[|added| - |live|..] == live
  {
    var fates :| Accounts(added, fates, kept, lost, live);
    SelectSizes(added, fates);
  }
}
