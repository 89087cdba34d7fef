/** Text predicates shared by several components. */
module Text {
  /** Nothing but ASCII white space. */
  predicate Blank(text: string) {
    forall i | 0 <= i < |text| :: text[i] in " \t\n\r"
  }
}
