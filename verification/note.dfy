/** `Note` and `Url`: a free-text note with links. */
module Notes {
  import opened Wrappers
  import opened Errors
  import opened Payload
  import opened ValueObjects

  /** `Url(url, description).url`: a link with its description. */
  function NewUrl(url: string, description: string): (link: Dict)
    ensures link.Keys == {UrlDescription, UrlLine}
    ensures link[UrlLine] == Str(url) && link[UrlDescription] == Str(description)
  {
    map[UrlDescription := Str(description), UrlLine := Str(url)]
  }

  /** `Note(comment)`: never fails; always starts with an empty list of links. */
  function NewNote(comment: string): (obs: Dict)
    ensures obs.Keys == {ObsComment, Urls}
    ensures obs[ObsComment] == Str(comment) && obs[Urls] == Arr([])
  {
    map[ObsComment := Str(comment), Urls := Arr([])]
  }

  /** `Note.add_url`: the link is appended to the note's links and nothing
      else changes. */
  function NoteAddUrl(obs: Dict, link: Dict): (r: Dict)
    requires Urls in obs && obs[Urls].Arr?
    ensures r.Keys == obs.Keys
    ensures r[Urls] == Arr(obs[Urls].items + [Obj(link)])
    ensures forall k :: k in obs && k != Urls ==> r[k] == obs[k]
  {
    AppendTo(obs, Urls, Obj(link))
  }
}
