/** The records shared by the whole application (types.ts). */
module Types {
  import opened Wrappers

  /** A byte of an `ArrayBuffer` or `Uint8Array`. */
  type Byte = b: int | 0 <= b < 256

  datatype BookFormat = Pdf | Epub

  /** `string | number`: a page number for a PDF, an opaque position string (CFI) for an EPUB. */
  datatype Location = Page(page: int) | Position(cfi: string)

  /** `labelText` is the record's `label` property (`label` is a Dafny keyword). */
  datatype Bookmark = Bookmark(id: string, labelText: string, location: Location, timestamp: int)

  /** A book of the library; the optional properties of the record are `Option`s. */
  datatype Book = Book(
    id: string,
    title: string,
    author: string,
    format: BookFormat,
    data: seq<Byte>,
    cover: Option<string>,
    addedAt: int,
    lastRead: Option<int>,
    progress: Option<real>,
    bookmarks: Option<seq<Bookmark>>)
}
