/** The linkedin_connection table, which both the rules and the fact extractor read. */
module Connections {
  import opened Wrappers
  import opened Naming

  datatype Connection = Connection(
    id: string,
    firstName: Option<string>,
    lastName: Option<string>,
    email: Option<string>,
    company: Option<string>,
    position: Option<string>)

  /** A column that is neither null nor empty. */
  predicate Present(text: Option<string>) {
    text.Some? && text.value != ""
  }

  function OrEmpty(text: Option<string>): string {
    if text.Some? then text.value else ""
  }

  function FullName(c: Connection): string {
    Strip(OrEmpty(c.firstName) + " " + OrEmpty(c.lastName))
  }

  /** f"{first_name or ''} {last_name or ''}".strip() or None */
  function DisplayName(c: Connection): Option<string> {
    if FullName(c) == "" then None else Some(FullName(c))
  }
}
