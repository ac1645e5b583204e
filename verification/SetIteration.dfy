/** Ranging over a map used as a set. */
module SetIteration {

  /** One step of the range: some member, in no particular order. */
  method Pick<T>(s: set<T>) returns (v: T)
    requires s != {}
    ensures v in s
  {
    v :| v in s;
  }
}
