/** What an action answers: a rendered template or a redirect. */
module Http {
  /**
   * A rendered page with its status, the `errors` map the template shows, and
   * the other string values handed to it (echoed input, a formatted date, a
   * single error line).
   */
  datatype Response =
    | Render(template: string, status: int, errors: map<string, string>, fields: map<string, string>)
    | Redirect(location: string, status: int)
}
