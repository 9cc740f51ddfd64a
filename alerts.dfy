/** The `{ show, message, type }` record that the calendar pages, the event
    form and the meal page keep for their alert banner. */
module AlertState {

  datatype Alert = Alert(show: bool, message: string, kind: string)

  /** `{ show: false, message: '', type: '' }`. */
  const Hidden: Alert := Alert(false, "", "")

  function Error(message: string): (a: Alert)
    ensures a.show && a.kind == "error" && a.message == message
  {
    Alert(true, message, "error")
  }

  function Success(message: string): (a: Alert)
    ensures a.show && a.kind == "success" && a.message == message
  {
    Alert(true, message, "success")
  }
}
