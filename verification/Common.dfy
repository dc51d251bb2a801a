/** Definitions shared by the models. */
module Common {

  datatype Option<T> = None | Some(value: T)

  type Byte = b: int | 0 <= b < 256
  type Bytes = seq<Byte>

  /** `http.Header`: values by canonical key. */
  type Fields = map<string, seq<string>>

  /** `http.Header.Get` for a canonical key. */
  function Get(h: Fields, key: string): string {
    if key in h && h[key] != [] then h[key][0] else ""
  }

  lemma {:induction false} SubsetSize<T>(a: set<T>, b: set<T>)
    requires a <= b
    ensures |a| <= |b| && (|a| == |b| ==> a == b)
  {
    if a != {} {
      var x :| x in a;
      SubsetSize(a - {x}, b - {x});
    }
  }
}
