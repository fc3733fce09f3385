/**
 * A value that may be absent: a failed directory listing, a request without a
 * body, a track name not yet set, a listener whose read is not yet open.
 */
module Optional {

  datatype Option<+T> = None | Some(value: T)
}
