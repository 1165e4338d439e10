/** Vocabulary shared by the backend endpoints, the route screens and the sign-in form. */
module Common {

  /** A value that may be missing: a Python key that `dict.get` does not find, a JavaScript `undefined`. */
  datatype Option<+T> = None | Some(value: T)

  /** Either a value or the error that took its place. */
  datatype Result<+T, +E> = Ok(value: T) | Err(error: E)

  /** One `Alert.alert(title, message)` dialog shown by a screen. */
  datatype Alert = Alert(title: string, message: string)

  /** JavaScript's `a || b` on two strings: the empty string is the only falsy string. */
  function Or(a: string, b: string): string
  {
    if a != "" then a else b
  }

  /** `x` occurs at position `i` of `xs` and nowhere before it. */
  ghost predicate FirstAt<T>(xs: seq<T>, x: T, i: int)
  {
    0 <= i < |xs| && xs[i] == x && forall k :: 0 <= k < i ==> xs[k] != x
  }

  /** Where Python's `list.index` (or JavaScript's `indexOf`) finds `x` in `xs`; `None` where
      Python raises `ValueError` (JavaScript answers -1). */
  function IndexOf<T(==)>(xs: seq<T>, x: T): (r: Option<nat>)
    ensures r.None? <==> x !in xs
    ensures r.Some? ==> FirstAt(xs, x, r.value)
  {
    if xs == [] then None
    else if xs[0] == x then Some(0)
    else
      match IndexOf(xs[1..], x)
      case None => None
      case Some(i) => Some(i + 1)
  }

  /** A first occurrence is unique, so it is the one `IndexOf` reports. */
  lemma FirstAtUnique<T>(xs: seq<T>, x: T, i: int, j: int)
    requires FirstAt(xs, x, i) && FirstAt(xs, x, j)
    ensures i == j
  {
  }

  lemma IndexOfFinds<T>(xs: seq<T>, x: T, i: int)
    requires FirstAt(xs, x, i)
    ensures IndexOf(xs, x) == Some(i)
  {
    FirstAtUnique(xs, x, IndexOf(xs, x).value, i);
  }
}
