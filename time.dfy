/** The unit every chapter time of the program is kept in. */
module Time {
  /** A time in whole milliseconds. */
  type Millis = nat
}
