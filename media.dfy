/** The search results the metadata service returns, as the relevance scorer and the
    result aggregator see them. */
module Media {
  import opened Wrappers
  import opened Text

  /** The two catalogues searched: cinematic releases (`'movie'`) and series (`'tv'`). */
  datatype MediaType = Movie | Tv

  /** One entry of a `results` list. Movies carry `title`, series carry `name`; the
      other fields of the record are passed through unchanged and are not modelled. */
  datatype SearchItem = SearchItem(
    id: int,
    title: Option<string>,
    name: Option<string>,
    posterPath: Option<string>,
    releaseDate: Option<string>,
    popularity: real)

  /** `item.title || item.name || ''`. */
  function DisplayTitle(item: SearchItem): (title: string)
    ensures title == [] || Some(title) == item.title || Some(title) == item.name
    ensures title == [] <==> !IsTruthy(item.title) && !IsTruthy(item.name)
    ensures IsTruthy(item.title) ==> Some(title) == item.title
  {
    if IsTruthy(item.title) then item.title.value
    else if IsTruthy(item.name) then item.name.value
    else []
  }
}
