/** The selection predicates of the query handlers, one per route. Each
    takes the already-converted query value first and the record second, so
    that it can be handed to `Sequences.Filter` and `Sequences.Find` by name.

    Numeric queries are `Option<int>`: `None` is the `NaN` of a failed
    `parseInt`, and every comparison against it is false, as in JavaScript.
    String queries arrive already lower-cased. */
module Queries {
  import opened Optional
  import opened Text
  import opened Records

  /** `x === y` where `y` came from `parseInt`. */
  predicate SameNumber(x: int, y: Option<int>)
  {
    y.Some? && x == y.value
  }

  /** `x >= lo` where `lo` came from `parseInt`. */
  predicate AtLeast(x: int, lo: Option<int>)
  {
    lo.Some? && x >= lo.value
  }

  /** `x <= hi` where `hi` came from `parseInt`. */
  predicate AtMost(x: int, hi: Option<int>)
  {
    hi.Some? && x <= hi.value
  }

  /** `p.paintingID === id` */
  predicate HasPaintingId(id: Option<int>, p: Painting)
  {
    SameNumber(p.paintingID, id)
  }

  /** `p.gallery.galleryID === id` */
  predicate InGallery(id: Option<int>, p: Painting)
  {
    SameNumber(p.gallery.galleryID, id)
  }

  /** `p.artist.artistID === id` */
  predicate ByArtist(id: Option<int>, p: Painting)
  {
    SameNumber(p.artist.artistID, id)
  }

  /** The two parsed bounds of the year route. */
  datatype YearRange = YearRange(min: Option<int>, max: Option<int>)

  /** `p.yearOfWork >= min && p.yearOfWork <= max` */
  predicate MadeWithin(range: YearRange, p: Painting)
  {
    AtLeast(p.yearOfWork, range.min) && AtMost(p.yearOfWork, range.max)
  }

  /** `p.title.toLowerCase().includes(text)` */
  predicate TitleIncludes(text: string, p: Painting)
  {
    Includes(Lower(p.title), text)
  }

  /** `p.details.annotation.dominantColors.some(c => c.name.toLowerCase() === name)` */
  predicate HasColorNamed(name: string, p: Painting)
  {
    var colors := p.details.annotation.dominantColors;
    exists i :: 0 <= i < |colors| && Lower(colors[i].name) == name
  }

  /** `a.Nationality.toLowerCase() === search` */
  predicate HasNationality(search: string, a: Artist)
  {
    Lower(a.nationality) == search
  }

  /** `g.GalleryCountry.toLowerCase() === search` */
  predicate InCountry(search: string, g: Gallery)
  {
    Lower(g.galleryCountry) == search
  }
}
