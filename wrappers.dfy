/** Optional values and the identifier and time types shared by the whole model. */
module Wrappers {

  /** A value that may be absent. For a request or document field, `None`
      stands for both `undefined` and `null` wherever the code treats the two
      alike (both are falsy, and Mongoose stores both as a missing value);
      where they differ, a module uses a type of its own. */
  datatype Option<+T> = None | Some(value: T)

  /** A Mongo ObjectId. The stores hand them out from a counter, so two
      documents created by the model never share one. */
  type ObjectId = nat

  /** A JavaScript `Date`, in milliseconds since the epoch. */
  type Millis = int
}
