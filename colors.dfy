/** Colours as the renderer names them. The colour scheme is opaque, so a
    scheme colour is identified by the key it is looked up with. */
module Colors {
  datatype Color =
    | Hex(code: string)          // `Color("#111111")`
    | Named(name: string)        // `Color("red")`
    | FromScheme(key: string)    // `scheme.get_color(key)`
}
