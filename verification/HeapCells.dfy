/** Objects on the C++ heap that are deleted explicitly: reading a deleted one is an
    error, so a setter whose argument may be the object's own current value has to copy
    it before deleting. */
module HeapCells {

  class HeapCell<T> {
    const content: T
    ghost var live: bool

    constructor (content: T)
      ensures live && this.content == content
    {
      this.content := content;
      live := true;
    }

    method Read() returns (v: T)
      requires live
      ensures v == content
    {
      v := content;
    }

    ghost method Delete()
      requires live
      modifies this
      ensures !live
    {
      live := false;
    }
  }
}
