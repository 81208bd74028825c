/** Types shared by the services: Python's `None`-or-value, and the `{title, year}` guess
    that both the filename parser and the language-model extraction return. */
module Common {

  datatype Option<+T> = None | Some(value: T)

  /** `{"title": title, "year": year}`; the year is a string such as "1968" or `None`. */
  datatype Candidate = Candidate(title: string, year: Option<string>)

  /** Python truthiness of an optional string: `None` and `""` are false. */
  predicate Truthy(s: Option<string>) {
    s.Some? && s.value != []
  }
}
