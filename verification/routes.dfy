/** The GET handlers: each converts its path parameters, runs one query
    over the dataset it is given, and folds the outcome into a response.
    The datasets are parameters, since they are fixed once loaded. */
module Routes {
  import opened Optional
  import opened Text
  import opened Numbers
  import opened Records
  import opened Sequences
  import opened Queries

  /** Which query found nothing, with the converted query values that the
      handler puts into its message text. */
  datatype NotFound =
    | PaintingNotFound(id: Option<int>)
    | NoPaintingsForGallery(id: Option<int>)
    | NoPaintingsForArtist(id: Option<int>)
    | NoPaintingsBetween(min: Option<int>, max: Option<int>)
    | NoTitleMatch(text: string)
    | NoColorMatch(name: string)
    | NoArtistsFrom(search: string)
    | NoGalleriesIn(search: string)

  /** A JSON reply: a list of records, a single record, or the
      `{ message }` envelope. All of them go out as successes. */
  datatype Response<T> = Data(items: seq<T>) | One(item: T) | Message(reason: NotFound)

  /** What a filtering route promises: a message, carrying `why`, exactly
      when nothing in `s` matches; otherwise the order-preserving selection
      of exactly the matching records. Never a single record. */
  ghost predicate AnswersFilter<Q, T>(r: Response<T>, s: seq<T>, q: Q, keep: (Q, T) -> bool, why: NotFound)
  {
    && !r.One?
    && (r.Message? <==> forall i :: 0 <= i < |s| ==> !keep(q, s[i]))
    && (r.Message? ==> r.reason == why)
    && (r.Data? ==> Selects(s, q, keep, r.items))
  }

  /** Filter, then answer with the hits or, when there are none
      (`result.length === 0`), with the message. */
  function FilterResponse<Q, T>(s: seq<T>, q: Q, keep: (Q, T) -> bool, why: NotFound): (r: Response<T>)
    ensures AnswersFilter(r, s, q, keep, why)
  {
    var hits := Filter(s, q, keep);
    FilterSelects(s, q, keep);
    assert |hits| > 0 ==> hits[0] in s && keep(q, hits[0]);
    if |hits| == 0 then Message(why) else Data(hits)
  }

  /** GET /api/paintings */
  function AllPaintings(paintings: seq<Painting>): (r: Response<Painting>)
    ensures r.Data? && r.items == paintings
  {
    Data(paintings)
  }

  /** GET /api/painting/:id: the first painting with that id, itself and
      not in a list, or the message when there is none. */
  function PaintingById(paintings: seq<Painting>, idParam: string): (r: Response<Painting>)
    ensures !r.Data?
    ensures r.Message? <==> forall i :: 0 <= i < |paintings| ==> !HasPaintingId(ParseInt(idParam), paintings[i])
    ensures r.Message? ==> r.reason == PaintingNotFound(ParseInt(idParam))
    ensures r.One? ==> exists i :: 0 <= i < |paintings| && paintings[i] == r.item
                                   && HasPaintingId(ParseInt(idParam), paintings[i])
                                   && forall j :: 0 <= j < i ==> !HasPaintingId(ParseInt(idParam), paintings[j])
  {
    var id := ParseInt(idParam);
    match Find(paintings, id, HasPaintingId)
    case Some(p) => One(p)
    case None => Message(PaintingNotFound(id))
  }

  /** GET /api/painting/gallery/:id */
  function PaintingsByGallery(paintings: seq<Painting>, idParam: string): (r: Response<Painting>)
    ensures AnswersFilter(r, paintings, ParseInt(idParam), InGallery, NoPaintingsForGallery(ParseInt(idParam)))
  {
    var id := ParseInt(idParam);
    FilterResponse(paintings, id, InGallery, NoPaintingsForGallery(id))
  }

  /** GET /api/painting/artist/:id */
  function PaintingsByArtist(paintings: seq<Painting>, idParam: string): (r: Response<Painting>)
    ensures AnswersFilter(r, paintings, ParseInt(idParam), ByArtist, NoPaintingsForArtist(ParseInt(idParam)))
  {
    var id := ParseInt(idParam);
    FilterResponse(paintings, id, ByArtist, NoPaintingsForArtist(id))
  }

  /** GET /api/painting/year/:min/:max */
  function PaintingsBetween(paintings: seq<Painting>, minParam: string, maxParam: string): (r: Response<Painting>)
    ensures var range := YearRange(ParseInt(minParam), ParseInt(maxParam));
            AnswersFilter(r, paintings, range, MadeWithin, NoPaintingsBetween(range.min, range.max))
  {
    var range := YearRange(ParseInt(minParam), ParseInt(maxParam));
    FilterResponse(paintings, range, MadeWithin, NoPaintingsBetween(range.min, range.max))
  }

  /** GET /api/painting/title/:text */
  function PaintingsByTitle(paintings: seq<Painting>, textParam: string): (r: Response<Painting>)
    ensures AnswersFilter(r, paintings, Lower(textParam), TitleIncludes, NoTitleMatch(Lower(textParam)))
  {
    var text := Lower(textParam);
    FilterResponse(paintings, text, TitleIncludes, NoTitleMatch(text))
  }

  /** GET /api/painting/color/:name */
  function PaintingsByColor(paintings: seq<Painting>, nameParam: string): (r: Response<Painting>)
    ensures AnswersFilter(r, paintings, Lower(nameParam), HasColorNamed, NoColorMatch(Lower(nameParam)))
  {
    var name := Lower(nameParam);
    FilterResponse(paintings, name, HasColorNamed, NoColorMatch(name))
  }

  /** GET /api/artists */
  function AllArtists(artists: seq<Artist>): (r: Response<Artist>)
    ensures r.Data? && r.items == artists
  {
    Data(artists)
  }

  /** GET /api/artists/:country */
  function ArtistsByCountry(artists: seq<Artist>, countryParam: string): (r: Response<Artist>)
    ensures AnswersFilter(r, artists, Lower(countryParam), HasNationality, NoArtistsFrom(Lower(countryParam)))
  {
    var search := Lower(countryParam);
    FilterResponse(artists, search, HasNationality, NoArtistsFrom(search))
  }

  /** GET /api/galleries */
  function AllGalleries(galleries: seq<Gallery>): (r: Response<Gallery>)
    ensures r.Data? && r.items == galleries
  {
    Data(galleries)
  }

  /** GET /api/galleries/:country */
  function GalleriesByCountry(galleries: seq<Gallery>, countryParam: string): (r: Response<Gallery>)
    ensures AnswersFilter(r, galleries, Lower(countryParam), InCountry, NoGalleriesIn(Lower(countryParam)))
  {
    var search := Lower(countryParam);
    FilterResponse(galleries, search, InCountry, NoGalleriesIn(search))
  }
}
