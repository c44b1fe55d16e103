/** The mime types of src/grd-mime-type.h. */
module MimeTypes {
  datatype Mime = NoType | TextPlain | TextPlainUtf8 | Utf8String | TextHtml | ImageBmp | ImageTiff | ImageGif
                | ImageJpeg | ImagePng | UriList | GnomeCopiedFiles

  /** A mime type and the id of the client's clipboard format that holds its data. */
  datatype MimeTable = MimeTable(mime: Mime, formatId: nat)
}
