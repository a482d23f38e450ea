/** The three datasets' record shapes, reduced to the fields the queries
    read plus the names that identify a record to a reader. A painting
    carries its own copy of its artist and gallery (the data are
    denormalised, not linked). */
module Records {

  /** The artist copy embedded in a painting (`painting.artist`). */
  datatype ArtistRef = ArtistRef(artistID: int, firstName: string, lastName: string)

  /** The gallery copy embedded in a painting (`painting.gallery`). */
  datatype GalleryRef = GalleryRef(galleryID: int, galleryName: string)

  /** One entry of `details.annotation.dominantColors`. */
  datatype Color = Color(name: string)

  datatype Annotation = Annotation(dominantColors: seq<Color>)

  datatype Details = Details(annotation: Annotation)

  /** A record of the paintings dataset. */
  datatype Painting = Painting(
    paintingID: int,
    title: string,
    yearOfWork: int,
    artist: ArtistRef,
    gallery: GalleryRef,
    details: Details)

  /** A record of the artists dataset; `nationality` is the JSON field
      `Nationality`. */
  datatype Artist = Artist(artistID: int, firstName: string, lastName: string, nationality: string)

  /** A record of the galleries dataset; `galleryCountry` is the JSON field
      `GalleryCountry`. */
  datatype Gallery = Gallery(galleryID: int, galleryName: string, galleryCountry: string)
}
