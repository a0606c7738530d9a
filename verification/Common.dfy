/** Small types shared by every module. */
module Common {

  datatype Option<+T> = None | Some(value: T)

  /** One octet, as the code's `unsigned char` and `guint8`. */
  type Byte = b: int | 0 <= b < 256

  function Min(a: int, b: int): int {
    if a <= b then a else b
  }

  lemma Regroup<T>(a: seq<T>, b: seq<T>, c: seq<T>)
    ensures a + b + c == a + (b + c)
  {
  }

  /** One or more sequences with a separator between them. */
  function JoinedBy<T>(parts: seq<seq<T>>, separator: T): seq<T>
    requires parts != []
  {
    if |parts| == 1 then parts[0]
    else JoinedBy(parts[..|parts| - 1], separator) + [separator] + parts[|parts| - 1]
  }

  lemma {:induction false} JoinedByNext<T>(parts: seq<seq<T>>, separator: T, part: seq<T>)
    ensures JoinedBy(parts + [part], separator)
      == if parts == [] then part else JoinedBy(parts, separator) + [separator] + part
  {
    if parts != [] {
      assert (parts + [part])[..|parts|] == parts;
    }
  }
}
