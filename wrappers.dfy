/** Optional values, standing for the `boost::optional` results of the queues. */
module Wrappers {
  datatype Option<+T> = None | Some(value: T)
}
