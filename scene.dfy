/**
  The parent transforms the placers instantiate objects under. Only the list
  of children is modelled; `Instantiate` followed by `SetParent` appends a
  child and `DestroyImmediate` removes one.
 */
module Scene {
  /** A `Transform` used as a parent: its children, in child order. */
  class Transform<T> {
    var children: seq<T>

    constructor (children: seq<T>)
      ensures this.children == children
    {
      this.children := children;
    }

    /** `newObject.transform.SetParent(this)`: the object becomes the last child. */
    method Adopt(child: T)
      modifies this
      ensures children == old(children) + [child]
    {
      children := children + [child];
    }

    /** `DestroyImmediate(GetChild(i).gameObject)` for `i` from `childCount - 1` down to 0. */
    method DestroyChildren()
      modifies this
      ensures children == []
    {
      var i := |children| - 1;
      while i >= 0
        invariant -1 <= i && i == |children| - 1
        invariant children == old(children)[..i + 1]
        decreases i
      {
        children := children[..i];
        i := i - 1;
      }
    }
  }
}
