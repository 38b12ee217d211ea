/** Value types shared by the models of the JavaScript bundle. */
module Basics {
  datatype Option<+T> = None | Some(value: T)

  /** One element of a Buffer. */
  type Byte = b: int | 0 <= b < 0x100

  /** One UTF-16 code unit, what `charCodeAt` returns. */
  type Unit = u: int | 0 <= u < 0x1_0000

  predicate IsLead(u: Unit) { 0xD800 <= u <= 0xDBFF }

  predicate IsTrail(u: Unit) { 0xDC00 <= u <= 0xDFFF }

  function Flatten<T>(xss: seq<seq<T>>): seq<T> {
    if |xss| == 0 then [] else xss[0] + Flatten(xss[1..])
  }

  lemma Associative<T>(a: seq<T>, b: seq<T>, c: seq<T>)
    ensures a + (b + c) == a + b + c
  {
  }

  /** One byte string cut twice: at the end of `e`, and `n` elements into `b`. */
  lemma CutInside<T>(a: seq<T>, b: seq<T>, c: seq<T>, n: nat, e: seq<T>, t: seq<T>)
    requires a + b + c == e + t && |a| + n == |e| && n <= |b|
    ensures a + b[..n] == e && b[n..] + c == t
  {
    var all := a + b + c;
    assert all[..|e|] == e && all[|e|..] == t;
    assert all[..|e|] == a + b[..n] && all[|e|..] == b[n..] + c;
  }

  lemma {:induction false} FlattenConcat<T>(xss: seq<seq<T>>, yss: seq<seq<T>>)
    ensures Flatten(xss + yss) == Flatten(xss) + Flatten(yss)
  {
    if |xss| == 0 {
      assert xss + yss == yss;
    } else {
      assert (xss + yss)[1..] == xss[1..] + yss;
      FlattenConcat(xss[1..], yss);
      Associative(xss[0], Flatten(xss[1..]), Flatten(yss));
    }
  }
}
