/**
 The text of a job as `to_json` writes it: a `std::map` is enumerated in the order of its
 keys, so a job has exactly one text.
 */
module JobPrint {
  import opened JobText
  import opened JobMaps
  import opened JobRoundTrip

  // ---- The order of keys ------------------------------------------------------

  /** `operator<` of `std::string`. */
  predicate Before(a: string, b: string) {
    b != "" && (a == "" || a[0] < b[0] || (a[0] == b[0] && Before(a[1..], b[1..])))
  }

  lemma {:induction false} BeforeTotal(a: string, b: string)
    ensures a == b || Before(a, b) || Before(b, a)
  {
    if a != "" && b != "" && a[0] == b[0] {
      BeforeTotal(a[1..], b[1..]);
      assert a == [a[0]] + a[1..] && b == [b[0]] + b[1..];
    }
  }

  lemma {:induction false} BeforeTrans(a: string, b: string, c: string)
    requires Before(a, b) && Before(b, c)
    ensures Before(a, c)
  {
    if a != "" && a[0] == b[0] && b[0] == c[0] {
      BeforeTrans(a[1..], b[1..], c[1..]);
    }
  }

  lemma {:induction false} BeforeStrict(a: string, b: string)
    requires Before(a, b)
    ensures !Before(b, a) && a != b
  {
    if a != "" && a[0] == b[0] {
      BeforeStrict(a[1..], b[1..]);
    }
  }

  predicate IsLeast(k: string, keys: set<string>) {
    k in keys && forall other :: other in keys && other != k ==> Before(k, other)
  }

  lemma {:induction false} HasLeast(keys: set<string>) returns (k: string)
    requires keys != {}
    ensures IsLeast(k, keys)
    decreases |keys|
  {
    var x :| x in keys;
    var rest := keys - {x};
    if rest == {} {
      k := x;
      assert keys == {x};
    } else {
      var y := HasLeast(rest);
      BeforeTotal(x, y);
      if Before(x, y) {
        k := x;
        forall other | other in keys && other != x ensures Before(x, other) {
          assert other in rest;
          if other != y { BeforeTrans(x, y, other); }
        }
      } else {
        k := y;
        forall other | other in keys && other != y ensures Before(y, other) {
          assert other == x || other in rest;
        }
      }
    }
  }

  lemma OneLeast(a: string, b: string, keys: set<string>)
    requires IsLeast(a, keys) && IsLeast(b, keys)
    ensures a == b
  {
    if a != b { BeforeStrict(a, b); }
  }

  lemma LeastIsUnique(keys: set<string>)
    requires keys != {}
    ensures exists k :: IsLeast(k, keys)
    ensures forall a, b :: IsLeast(a, keys) && IsLeast(b, keys) ==> a == b
  {
    var k := HasLeast(keys);
    forall a, b | IsLeast(a, keys) && IsLeast(b, keys) ensures a == b { OneLeast(a, b, keys); }
  }

  function Least(keys: set<string>): (k: string)
    requires keys != {}
    ensures IsLeast(k, keys)
  {
    LeastIsUnique(keys);
    var k :| IsLeast(k, keys);
    k
  }

  /** The entries of a map in the order of their keys. */
  function Listing(m: map<string, string>): Pairs
    decreases |m|
  {
    if m == map[] then []
    else
      assert m.Keys != {};
      var k := Least(m.Keys);
      Shrinks(m, k);
      [(k, m[k])] + Listing(m - {k})
  }

  lemma Shrinks(m: map<string, string>, k: string)
    requires k in m
    ensures |m - {k}| < |m|
  {
    var rest := m - {k};
    assert m == rest[k := m[k]];
  }

  lemma ListingHead(m: map<string, string>)
    requires m != map[]
    ensures Listing(m) != [] && Listing(m)[0].0 in m && Listing(m)[0].1 == m[Listing(m)[0].0]
    ensures Listing(m)[1..] == Listing(m - {Listing(m)[0].0})
  {
  }

  lemma MoveEntry(out: map<string, string>, m: map<string, string>, k: string)
    requires k in m
    ensures out[k := m[k]] + (m - {k}) == out + m
  {
  }

  lemma {:induction false} AddListing(out: map<string, string>, m: map<string, string>)
    ensures AddAll(out, Listing(m)) == out + m
    decreases |m|
  {
    if m == map[] {
      assert Listing(m) == [] && out + m == out;
    } else {
      ListingHead(m);
      var k := Listing(m)[0].0;
      Shrinks(m, k);
      AddListing(out[k := m[k]], m - {k});
      MoveEntry(out, m, k);
    }
  }

  lemma ListingLists(m: map<string, string>)
    ensures Lists(Listing(m), m)
  {
    AddListing(map[], m);
    assert map[] + m == m;
  }

  /** What `to_json` writes. */
  function Print(j: Job): string {
    ToJson(j, Listing(j.answers), Listing(j.identity))
  }
}
