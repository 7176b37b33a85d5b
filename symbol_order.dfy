/** The order `a.symbol.localeCompare(b.symbol)` sorts by, read as a fixed
    total order on strings: lexicographic order on character codes. */
module SymbolOrder {

  predicate SymbolLessEq(a: string, b: string) {
    if a == [] then true
    else if b == [] then false
    else if a[0] != b[0] then a[0] < b[0]
    else SymbolLessEq(a[1..], b[1..])
  }

  lemma {:induction false} Total(a: string, b: string)
    ensures SymbolLessEq(a, b) || SymbolLessEq(b, a)
  {
    if a != [] && b != [] && a[0] == b[0] {
      Total(a[1..], b[1..]);
    }
  }

  lemma {:induction false} Antisymmetric(a: string, b: string)
    requires SymbolLessEq(a, b) && SymbolLessEq(b, a)
    ensures a == b
  {
    if a != [] && b != [] {
      Antisymmetric(a[1..], b[1..]);
      assert a == [a[0]] + a[1..] && b == [b[0]] + b[1..];
    }
  }

  lemma {:induction false} Transitive(a: string, b: string, c: string)
    requires SymbolLessEq(a, b) && SymbolLessEq(b, c)
    ensures SymbolLessEq(a, c)
  {
    if a != [] && b != [] && c != [] && a[0] == b[0] && b[0] == c[0] {
      Transitive(a[1..], b[1..], c[1..]);
    }
  }
}
