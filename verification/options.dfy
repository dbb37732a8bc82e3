/** The partial results of the layout core: a font that may fail to load,
    a region that may be skipped. */
module Options {

  datatype Option<+T> = None | Some(value: T)
}
