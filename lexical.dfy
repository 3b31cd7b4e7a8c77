/**
 * Lexicographic comparison of names and paths.
 *
 * Rust's `String::cmp` compares the UTF-8 bytes of two strings; for valid
 * UTF-8 this is the same order as comparing their Unicode scalar values one
 * by one, which is what Dafny's `char` comparison does. `Path::cmp` compares
 * two paths component by component.
 */
module Lexical {

  datatype Ordering = Less | Equal | Greater {
    function Flip(): Ordering {
      match this
      case Less => Greater
      case Equal => Equal
      case Greater => Less
    }
  }

  /** Three-way comparison of two strings, character by character. */
  function CompareStrings(a: string, b: string): (r: Ordering)
    ensures r == Equal <==> a == b
  {
    if a == [] && b == [] then Equal
    else if a == [] then Less
    else if b == [] then Greater
    else if a[0] < b[0] then Less
    else if b[0] < a[0] then Greater
    else
      var r := CompareStrings(a[1..], b[1..]);
      assert r == Equal ==> a == [a[0]] + a[1..] == [b[0]] + b[1..] == b;
      r
  }

  /** `a <= b` in the byte order `Vec::sort_by(|f1, f2| f1.name.cmp(&f2.name))` uses. */
  predicate StrLe(a: string, b: string) {
    CompareStrings(a, b) != Greater
  }

  lemma {:induction false} CompareStringsFlip(a: string, b: string)
    ensures CompareStrings(b, a) == CompareStrings(a, b).Flip()
  {
    if a != [] && b != [] && a[0] == b[0] {
      CompareStringsFlip(a[1..], b[1..]);
    }
  }

  /** The order is total: of two strings, one is at most the other. */
  lemma StrLeTotal(a: string, b: string)
    ensures StrLe(a, b) || StrLe(b, a)
  {
    CompareStringsFlip(a, b);
  }

  lemma {:induction false} StrLeTransitive(a: string, b: string, c: string)
    requires StrLe(a, b) && StrLe(b, c)
    ensures StrLe(a, c)
  {
    if a != [] && b != [] && c != [] && a[0] == b[0] == c[0] {
      StrLeTransitive(a[1..], b[1..], c[1..]);
    }
  }

  /** Three-way comparison of two paths, component by component. */
  function ComparePaths(p: seq<string>, q: seq<string>): (r: Ordering)
    ensures r == Equal <==> p == q
  {
    if p == [] && q == [] then Equal
    else if p == [] then Less
    else if q == [] then Greater
    else
      var head := CompareStrings(p[0], q[0]);
      if head != Equal then head
      else
        var r := ComparePaths(p[1..], q[1..]);
        assert r == Equal ==> p == [p[0]] + p[1..] == [q[0]] + q[1..] == q;
        r
  }
}
