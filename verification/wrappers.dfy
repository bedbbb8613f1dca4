/**
 Optional values: Go's untyped nil interface, nil errors and "not found"
 results. A typed nil pointer stored in an interface is not nil in Go, so
 it is `Some` of a pointer that is itself `None`.
 */
module Wrappers {

  datatype Option<+T> = None | Some(value: T)
}
