// A reference to a mutable value: what a map, a slice or a struct is to the
// objects that share it.
module Cells {
  class Cell<T> {
    var value: T

    constructor (value: T)
      ensures this.value == value
    {
      this.value := value;
    }
  }
}
