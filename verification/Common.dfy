/** Small things every module may need. */
module Common {

  datatype Option<+T> = None | Some(value: T)

  datatype GroupKind = GroupKind(group: string, kind: string)

  datatype GroupVersionKind = GroupVersionKind(group: string, version: string, kind: string)

  type int32 = x: int | -0x8000_0000 <= x < 0x8000_0000

  /** A port by number or by name. */
  datatype IntOrString = Number(number: int32) | Named(name: string)

  /** Taking one element off the work list adds it to the finished part. */
  lemma Shrink<T>(all: set<T>, left: set<T>, x: T)
    requires left <= all && x in left
    ensures all - (left - {x}) == (all - left) + {x}
    ensures |all - (left - {x})| == |all - left| + 1
    ensures |left - {x}| < |left|
  {
    assert all - (left - {x}) == (all - left) + {x};
  }
}
