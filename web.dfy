/** What the controllers see of the web layer: the session's `userId`
    attribute and the view a handler returns together with the attributes it
    added to its `Model`. */
module Web {

  datatype Option<+T> = None | Some(value: T)

  /** A handler's answer: the view name (or redirect) and the model attributes it set. */
  datatype View = View(name: string, model: map<string, string>)

  const RedirectToLogin := "redirect:/login"

  /** An HttpSession reduced to its one attribute, `userId`; a missing
      attribute (Java null) is None. */
  class Session {
    var userId: Option<string>

    constructor ()
      ensures userId == None
    {
      userId := None;
    }
  }
}
