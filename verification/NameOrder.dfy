/** Lists of names and their order, as reports list them. */
module NameOrder {
  function Elements(names: seq<string>): set<string> { set i | 0 <= i < |names| :: names[i] }

  /** Dictionary order over code points. */
  predicate Before(a: string, b: string)
    decreases |a|
  {
    b != [] && (a == [] || a[0] < b[0] || (a[0] == b[0] && Before(a[1..], b[1..])))
  }

  /** In strictly rising order. */
  predicate Rising(names: seq<string>) { forall i, j | 0 <= i < j < |names| :: Before(names[i], names[j]) }

  /** A set, as a list in order. */
  predicate Lists(names: seq<string>, all: set<string>) { Rising(names) && Elements(names) == all }

  lemma {:induction false} Trichotomy(a: string, b: string)
    ensures a == b || Before(a, b) || Before(b, a)
    ensures !(Before(a, b) && Before(b, a)) && !Before(a, a)
    decreases |a|
  {
    if a != [] && b != [] && a[0] == b[0] {
      Trichotomy(a[1..], b[1..]);
      assert a == [a[0]] + a[1..] && b == [b[0]] + b[1..];
    }
    if a != [] { Trichotomy(a[1..], a[1..]); }
  }

  lemma {:induction false} Transitive(a: string, b: string, c: string)
    requires Before(a, b) && Before(b, c)
    ensures Before(a, c)
    decreases |a|
  {
    if a != [] && a[0] == b[0] == c[0] {
      Transitive(a[1..], b[1..], c[1..]);
    }
  }

  predicate Least(name: string, all: set<string>) { name in all && forall n | n in all :: n == name || Before(name, n) }

  lemma {:induction false} HasLeast(all: set<string>) returns (least: string)
    requires all != {}
    ensures Least(least, all)
    decreases |all|
  {
    hide Before;
    least :| least in all;
    if all != {least} {
      var other := HasLeast(all - {least});
      Trichotomy(least, other);
      if Before(other, least) {
        least := other;
      } else {
        forall n | n in all ensures n == least || Before(least, n) {
          if n != least && n != other { Transitive(least, other, n); }
        }
      }
    }
  }

  /** The names in order. */
  method Sort(all: set<string>) returns (names: seq<string>)
    ensures Lists(names, all)
  {
    hide Before;
    names := [];
    var rest := all;
    while rest != {}
      invariant rest <= all && Lists(names, all - rest)
      invariant forall i, n | 0 <= i < |names| && n in rest :: Before(names[i], n)
    {
      ghost var _ := HasLeast(rest);
      var least :| least in rest && forall n | n in rest :: n == least || Before(least, n);
      ElementsSnoc(names, least);
      names, rest := names + [least], rest - {least};
    }
  }

  lemma NoElements(names: seq<string>)
    ensures Elements(names) == {} <==> names == []
  {
    if names != [] { assert names[0] in Elements(names); }
  }

  lemma ElementsSnoc(names: seq<string>, name: string)
    ensures Elements(names + [name]) == Elements(names) + {name}
  {
    var all := names + [name];
    assert all[|names|] == name;
    assert forall i | 0 <= i < |names| :: all[i] == names[i];
  }

  lemma ElementsRest(names: seq<string>)
    requires names != [] && Rising(names)
    ensures Rising(names[1..]) && Elements(names[1..]) == Elements(names) - {names[0]}
    ensures Least(names[0], Elements(names))
  {
    hide Before;
    forall i | 0 < i < |names| ensures names[i] != names[0] { Trichotomy(names[0], names[i]); }
    forall n | n in Elements(names) - {names[0]} ensures n in Elements(names[1..]) {
      var k :| 0 <= k < |names| && names[k] == n;
      assert names[1..][k - 1] == n;
    }
    forall n | n in Elements(names[1..]) ensures n in Elements(names) {
      var k :| 0 <= k < |names[1..]| && names[1..][k] == n;
      assert names[k + 1] == n;
    }
  }

  /** There is one such list. */
  lemma {:induction false} OneList(a: seq<string>, b: seq<string>, all: set<string>)
    requires Lists(a, all) && Lists(b, all)
    ensures a == b
    decreases |a|
  {
    hide Before;
    NoElements(a);
    NoElements(b);
    if a != [] && b != [] {
      ElementsRest(a);
      ElementsRest(b);
      Trichotomy(a[0], b[0]);
      OneList(a[1..], b[1..], all - {a[0]});
      assert a == [a[0]] + a[1..] && b == [b[0]] + b[1..];
    }
  }
}
