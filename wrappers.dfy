/**
 * Optional values: the image of a page (none when building it throws), the
 * page an answer yields, the first `\d+px` match, and the item a selection shows.
 */
module Wrappers {
  datatype Option<+T> = None | Some(value: T)
}
