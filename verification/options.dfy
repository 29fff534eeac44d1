/** The conventional optional value, used for "no round yet" and for a
    random stream that ran out before the rejection loop finished. */
module Options {

  datatype Option<+T> = None | Some(value: T)

}
