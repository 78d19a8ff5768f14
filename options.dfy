/** The optional value shared by the page's modules: a DOM lookup that may
    find nothing, a computed transform that may be `none`. */
module Options {
  datatype Option<+T> = None | Some(value: T)
}
