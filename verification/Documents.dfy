/** Values of a decoded document, as far as its readers care. */
module Documents {

  /** A field that is missing (or null), a text, or anything else. */
  datatype Field = Absent | Text(text: string) | NotText
}
