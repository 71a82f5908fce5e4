/** The keep-or-replace field updates of updatePostCaption and
    writeAboutUser: `field = incoming ? incoming : field`. */
module Edits {
  import opened Entities

  /** An optional profile field after the update. */
  function KeepOrReplace(current: Option<string>, incoming: Option<string>): (r: Option<string>)
    ensures r == current || r == incoming
    ensures Truthy(incoming) ==> r == incoming
    ensures !Truthy(incoming) ==> r == current
    ensures Truthy(current) ==> Truthy(r)
  {
    if Truthy(incoming) then incoming else current
  }

  /** A required text field (the caption) after the update. */
  function KeepOrReplaceText(current: string, incoming: Option<string>): (r: string)
    ensures r == current || incoming == Some(r)
    ensures Truthy(incoming) ==> incoming == Some(r)
    ensures !Truthy(incoming) ==> r == current
    ensures current != "" ==> r != ""
  {
    if Truthy(incoming) then incoming.value else current
  }

  /** Sending the same values again changes nothing. */
  lemma KeepOrReplaceIdempotent(current: Option<string>, incoming: Option<string>)
    ensures KeepOrReplace(KeepOrReplace(current, incoming), incoming) == KeepOrReplace(current, incoming)
  {
  }
}
