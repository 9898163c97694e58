/** Small shared vocabulary: an optional value and the element set of a sequence. */
module Common {

  /** A value that may be missing; the source returns `null` or emits nothing in those cases. */
  datatype Option<+T> = None | Some(value: T)

  /** The set of the elements of a sequence (a JavaScript array read as a collection). */
  function Elems<T>(s: seq<T>): set<T>
  {
    set x | x in s
  }

  /** One more element of a prefix. */
  lemma TakeOneMore<T>(s: seq<T>, i: int)
    requires 0 <= i < |s|
    ensures s[..i + 1] == s[..i] + [s[i]]
    ensures Elems(s[..i + 1]) == Elems(s[..i]) + {s[i]}
  {
    assert s[..i + 1] == s[..i] + [s[i]];
  }

  /** Appending one element adds it to the element set. */
  lemma ElemsSnoc<T>(s: seq<T>, x: T)
    ensures Elems(s + [x]) == Elems(s) + {x}
  {
  }
}
