/** The order of normalized absolute UTF-8 paths: component by component, which is the order of
    their characters with the separator below every other character. */
module Paths {
  import opened Common

  function CharRank(c: char): nat {
    if c == '/' then 0 else 1 + c as int
  }

  predicate PathLe(a: Path, b: Path) {
    a == [] || (b != [] && (CharRank(a[0]) < CharRank(b[0]) || (a[0] == b[0] && PathLe(a[1..], b[1..]))))
  }

  lemma {:induction false} PathLeTotal(a: Path, b: Path)
    ensures PathLe(a, b) || PathLe(b, a)
  {
    if a != [] && b != [] {
      PathLeTotal(a[1..], b[1..]);
    }
  }

  lemma {:induction false} PathLeTransitive(a: Path, b: Path, c: Path)
    requires PathLe(a, b) && PathLe(b, c)
    ensures PathLe(a, c)
  {
    if a != [] && a[0] == b[0] && b[0] == c[0] {
      PathLeTransitive(a[1..], b[1..], c[1..]);
    }
  }

  lemma {:induction false} PathLeAntisymmetric(a: Path, b: Path)
    requires PathLe(a, b) && PathLe(b, a)
    ensures a == b
  {
    if a != [] && b != [] {
      PathLeAntisymmetric(a[1..], b[1..]);
      assert a == [a[0]] + a[1..] && b == [b[0]] + b[1..];
    }
  }

  // ---------------------------------------------------------------------------------
  // The same order, component by component
  // ---------------------------------------------------------------------------------

  /** What stands between the separators. */
  function Components(p: Path): (cs: seq<string>)
    ensures cs != []
  {
    if p == [] then [[]]
    else
      var rest := Components(p[1..]);
      if p[0] == '/' then [[]] + rest else [[p[0]] + rest[0]] + rest[1..]
  }

  predicate TextLe(a: string, b: string) {
    a == [] || (b != [] && if a[0] == b[0] then TextLe(a[1..], b[1..]) else a[0] < b[0])
  }

  predicate ComponentsLe(a: seq<string>, b: seq<string>) {
    a == [] || (b != [] && if a[0] == b[0] then ComponentsLe(a[1..], b[1..]) else TextLe(a[0], b[0]))
  }

  /** The order of paths is that of their lists of components, whatever characters these have: a
      directory comes before everything below it, and that before `directory-2`. */
  lemma {:induction false} PathsCompareByComponents(a: Path, b: Path)
    ensures PathLe(a, b) <==> ComponentsLe(Components(a), Components(b))
  {
    if a != [] && b != [] {
      PathsCompareByComponents(a[1..], b[1..]);
      var r, q := Components(a[1..]), Components(b[1..]);
      if a[0] != b[0] {
        FirstDiffers(a, b);
      } else if a[0] == '/' {
        assert Components(a)[1..] == r && Components(b)[1..] == q;
      } else {
        PrependedComponent(a[0], r, q);
      }
    }
  }

  lemma FirstOf(a: Path)
    requires a != []
    ensures Components(a)[0] == [] <==> a[0] == '/'
    ensures a[0] != '/' ==> Components(a)[0][0] == a[0]
  {
  }

  lemma FirstDiffers(a: Path, b: Path)
    requires a != [] && b != [] && a[0] != b[0]
    ensures Components(a)[0] != Components(b)[0]
    ensures TextLe(Components(a)[0], Components(b)[0]) <==> PathLe(a, b)
  {
    FirstOf(a);
    FirstOf(b);
    hide Components;
  }

  lemma PrependedComponent(c: char, r: seq<string>, q: seq<string>)
    requires r != [] && q != []
    ensures ComponentsLe([[c] + r[0]] + r[1..], [[c] + q[0]] + q[1..]) <==> ComponentsLe(r, q)
  {
    assert ([c] + r[0])[1..] == r[0] && ([c] + q[0])[1..] == q[0];
    var r', q' := [[c] + r[0]] + r[1..], [[c] + q[0]] + q[1..];
    assert r'[1..] == r[1..] && q'[1..] == q[1..];
  }
}
