/** Optional values. In this model `None` stands for Go's nil `*fiber.App`. */
module Wrappers {

  datatype Option<+T> = None | Some(value: T)

}
