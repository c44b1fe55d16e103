/** Which mime types a client format list offers (cliprdr_client_format_list in src/grd-clipboard-rdp.c). */
module FormatClassification {
  import opened MimeTypes
  import opened Options

  const CF_TEXT: nat := 1
  const CF_TIFF: nat := 6
  const CF_OEMTEXT: nat := 7
  const CF_DIB: nat := 8
  const CF_UNICODETEXT: nat := 13

  /** A clipboard format of the client. */
  datatype Format = Format(id: nat, name: Option<string>)

  /** The mime type a format stands for: by its name if that is a known one, otherwise by its id. All text
      formats stand for the same type. */
  function Kind(f: Format): Mime {
    if f.name == Some("FileGroupDescriptorW") || f.name == Some("FileGroupDescri") then UriList
    else if f.name == Some("HTML Format") then TextHtml
    else if f.name == Some("image/gif") then ImageGif
    else if f.name == Some("image/png") then ImagePng
    else if f.name == Some("image/jpeg") then ImageJpeg
    else if f.id == CF_TEXT || f.id == CF_UNICODETEXT || f.id == CF_OEMTEXT then TextPlainUtf8
    else if f.id == CF_DIB then ImageBmp
    else if f.id == CF_TIFF then ImageTiff
    else NoType
  }

  /** Whether the name of a format alone tells what it is. */
  predicate NamesKind(name: Option<string>, kind: Mime) {
    match kind
    case UriList => name == Some("FileGroupDescriptorW") || name == Some("FileGroupDescri")
    case TextHtml => name == Some("HTML Format")
    case ImageGif => name == Some("image/gif")
    case ImagePng => name == Some("image/png")
    case ImageJpeg => name == Some("image/jpeg")
    case _ => false
  }

  predicate IdIsOfKind(id: nat, kind: Mime) {
    match kind
    case TextPlainUtf8 => id in {CF_TEXT, CF_OEMTEXT, CF_UNICODETEXT}
    case ImageBmp => id == CF_DIB
    case ImageTiff => id == CF_TIFF
    case _ => false
  }

  lemma NamesDiffer()
    ensures |"FileGroupDescriptorW"| == 20 && |"FileGroupDescri"| == 15 && |"HTML Format"| == 11
    ensures |"image/jpeg"| == 10 && |"image/gif"| == |"image/png"| == 9 && "image/gif"[6] != "image/png"[6]
  {
  }

  /** A format is of a kind exactly if its name says so, or no name is known and its id says so. */
  lemma KindIff(f: Format, kind: Mime)
    requires kind != NoType
    ensures Kind(f) == kind <==>
            NamesKind(f.name, kind) || ((forall other :: !NamesKind(f.name, other)) && IdIsOfKind(f.id, kind))
  {
    NamesDiffer();
    assert NamesKind(f.name, kind) ==> Kind(f) == kind;
    assert (forall other :: !NamesKind(f.name, other)) <==>
           !NamesKind(f.name, UriList) && !NamesKind(f.name, TextHtml) && !NamesKind(f.name, ImageGif) &&
           !NamesKind(f.name, ImagePng) && !NamesKind(f.name, ImageJpeg);
  }

  /** The id of the first format of a kind. */
  function FirstOf(formats: seq<Format>, kind: Mime): Option<nat>
    decreases |formats|
  {
    var n := |formats|;
    if n == 0 then None
    else if FirstOf(formats[..n - 1], kind).Some? then FirstOf(formats[..n - 1], kind)
    else if Kind(formats[n - 1]) == kind then Some(formats[n - 1].id)
    else None
  }

  predicate HasUnicodeText(formats: seq<Format>) {
    exists i :: 0 <= i < |formats| && formats[i].id == CF_UNICODETEXT
  }

  /** The kind of format that provides a mime type; both text types and both file list types share one. */
  function Provider(mime: Mime): Mime {
    match mime
    case Utf8String => TextPlainUtf8
    case GnomeCopiedFiles => UriList
    case TextPlain => NoType
    case _ => mime
  }

  /** The id that must be used for a mime type after looking at the first i formats: CF_UNICODETEXT for both
      text types whenever it is in the whole list, and otherwise the first format that provides the type. */
  function IdFor(formats: seq<Format>, i: nat, mime: Mime): Option<nat>
    requires i <= |formats|
  {
    if Provider(mime) == NoType then None
    else if Provider(mime) == TextPlainUtf8 && HasUnicodeText(formats) then Some(CF_UNICODETEXT)
    else FirstOf(formats[..i], Provider(mime))
  }

  /** The table of a mime type is in the list exactly if the ids say so, and only once. */
  ghost predicate Lists(tables: seq<MimeTable>, ids: map<Mime, nat>) {
    && (forall i :: 0 <= i < |tables| ==> tables[i].mime in ids && ids[tables[i].mime] == tables[i].formatId)
    && (forall mime :: mime in ids ==> exists i :: 0 <= i < |tables| && tables[i].mime == mime)
    && (forall i, j :: 0 <= i < j < |tables| ==> tables[i].mime != tables[j].mime)
  }

  lemma ListsOneMore(tables: seq<MimeTable>, ids: map<Mime, nat>, mime: Mime, id: nat)
    requires Lists(tables, ids) && mime !in ids
    ensures Lists(tables + [MimeTable(mime, id)], ids[mime := id])
  {
    var longer := tables + [MimeTable(mime, id)];
    forall m {:trigger m in ids} | m in ids[mime := id]
      ensures exists i :: 0 <= i < |longer| && longer[i].mime == m
    {
      if m == mime {
        assert longer[|tables|].mime == m;
      } else {
        var i :| 0 <= i < |tables| && tables[i].mime == m;
        assert longer[i].mime == m;
      }
    }
  }

  /** The ids are those of the types found in the first i formats. */
  ghost predicate Found(formats: seq<Format>, i: nat, ids: map<Mime, nat>)
    requires i <= |formats|
  {
    forall mime :: IdFor(formats, i, mime) == if mime in ids then Some(ids[mime]) else None
  }

  lemma IdForNext(formats: seq<Format>, i: nat, mime: Mime)
    requires i < |formats|
    ensures IdFor(formats, i + 1, mime) ==
            if IdFor(formats, i, mime).Some? then IdFor(formats, i, mime)
            else if Kind(formats[i]) == Provider(mime) != NoType then Some(formats[i].id) else None
  {
    assert formats[..i + 1][..i] == formats[..i];
  }

  /** Types with one provider are found together. */
  lemma FoundTogether(formats: seq<Format>, i: nat, ids: map<Mime, nat>)
    requires i <= |formats| && Found(formats, i, ids)
    ensures UriList in ids <==> GnomeCopiedFiles in ids
    ensures TextPlainUtf8 in ids <==> Utf8String in ids
    ensures HasUnicodeText(formats) ==> TextPlainUtf8 in ids
    ensures NoType !in ids
  {
    assert forall mime :: mime in ids ==> IdFor(formats, i, mime).Some?;
    assert IdFor(formats, i, UriList) == IdFor(formats, i, GnomeCopiedFiles);
    assert IdFor(formats, i, TextPlainUtf8) == IdFor(formats, i, Utf8String);
  }

  /** What one format adds: every type its kind provides that was not found before. */
  ghost predicate Adds(ids: map<Mime, nat>, ids': map<Mime, nat>, kind: Mime, id: nat) {
    forall mime :: (if mime in ids' then Some(ids'[mime]) else None) ==
                   if mime in ids then Some(ids[mime])
                   else if Provider(mime) == kind != NoType then Some(id) else None
  }

  lemma FoundNext(formats: seq<Format>, i: nat, ids: map<Mime, nat>, ids': map<Mime, nat>)
    requires i < |formats| && Found(formats, i, ids) && Adds(ids, ids', Kind(formats[i]), formats[i].id)
    ensures Found(formats, i + 1, ids')
  {
    forall mime ensures IdFor(formats, i + 1, mime) == if mime in ids' then Some(ids'[mime]) else None {
      IdForNext(formats, i, mime);
    }
  }

  method AddTable(tables: seq<MimeTable>, found: set<Mime>, ghost ids: map<Mime, nat>, mime: Mime, id: nat)
    returns (tables': seq<MimeTable>, found': set<Mime>, ghost ids': map<Mime, nat>)
    requires Lists(tables, ids) && found == ids.Keys && mime !in found
    ensures found' == found + {mime} && ids' == ids[mime := id]
    ensures Lists(tables', ids') && found' == ids'.Keys
  {
    ListsOneMore(tables, ids, mime, id);
    return tables + [MimeTable(mime, id)], found + {mime}, ids[mime := id];
  }

  function Extended(ids: map<Mime, nat>, kind: Mime, id: nat): map<Mime, nat> {
    if kind == NoType || kind in ids then ids
    else if kind == UriList then ids[GnomeCopiedFiles := id][UriList := id]
    else if kind == TextPlainUtf8 then ids[TextPlainUtf8 := id][Utf8String := id]
    else ids[kind := id]
  }

  lemma ExtendedAdds(ids: map<Mime, nat>, kind: Mime, id: nat)
    requires UriList in ids <==> GnomeCopiedFiles in ids
    requires TextPlainUtf8 in ids <==> Utf8String in ids
    requires kind !in {TextPlain, Utf8String, GnomeCopiedFiles}
    ensures Adds(ids, Extended(ids, kind, id), kind, id)
  {
  }

  /** One round of the second loop, for a format of the given kind; the assertion on text formats holds. */
  method ClassifyFormat(kind: Mime, id: nat, tables: seq<MimeTable>, found: set<Mime>, ghost ids: map<Mime, nat>, hasText: bool)
    returns (tables': seq<MimeTable>, found': set<Mime>, ghost ids': map<Mime, nat>, hasText': bool)
    requires Lists(tables, ids) && found == ids.Keys && hasText == (TextPlainUtf8 in ids)
    requires UriList in ids <==> GnomeCopiedFiles in ids
    requires TextPlainUtf8 in ids <==> Utf8String in ids
    requires kind !in {TextPlain, Utf8String, GnomeCopiedFiles}
    ensures Lists(tables', ids') && found' == ids'.Keys && hasText' == (TextPlainUtf8 in ids')
    ensures ids' == Extended(ids, kind, id)
  {
    tables', found', ids', hasText' := tables, found, ids, hasText;
    var mime := kind;
    if kind == UriList {
      if UriList !in found {
        tables', found', ids' := AddTable(tables, found, ids, GnomeCopiedFiles, id);
      }
    } else if kind == TextPlainUtf8 {
      mime := NoType;
      if !hasText {
        assert TextPlainUtf8 !in found;
        tables', found', ids' := AddTable(tables, found, ids, TextPlainUtf8, id);
        mime, hasText' := Utf8String, true;
      }
    }
    if mime != NoType && mime !in found' {
      tables', found', ids' := AddTable(tables', found', ids', mime, id);
    }
  }

  /** The first loop: CF_UNICODETEXT is forced for both text types wherever it is in the list. */
  method ForceUnicodeText(formats: seq<Format>)
    returns (tables: seq<MimeTable>, found: set<Mime>, ghost ids: map<Mime, nat>, hasText: bool)
    ensures Lists(tables, ids) && found == ids.Keys && hasText == (TextPlainUtf8 in ids)
    ensures Found(formats, 0, ids)
  {
    tables, found, ids, hasText := [], {}, map[], false;
    var i := 0;
    while i < |formats|
      invariant 0 <= i <= |formats| && !hasText && tables == [] && found == {} && ids == map[]
      invariant forall k :: 0 <= k < i ==> formats[k].id != CF_UNICODETEXT
    {
      if formats[i].id == CF_UNICODETEXT {
        tables, found, ids := AddTable(tables, found, ids, TextPlainUtf8, formats[i].id);
        tables, found, ids := AddTable(tables, found, ids, Utf8String, formats[i].id);
        hasText := true;
        break;
      }
      i := i + 1;
    }
    assert hasText == HasUnicodeText(formats);
  }

  /** The two loops of the classification: each mime type is listed once, with the id it must have, and only
      if the client offers it. */
  method ClassifyFormats(formats: seq<Format>) returns (tables: seq<MimeTable>)
    ensures forall i, j :: 0 <= i < j < |tables| ==> tables[i].mime != tables[j].mime
    ensures forall mime :: (exists i :: 0 <= i < |tables| && tables[i].mime == mime) <==>
                           IdFor(formats, |formats|, mime).Some?
    ensures forall i :: 0 <= i < |tables| ==> IdFor(formats, |formats|, tables[i].mime) == Some(tables[i].formatId)
  {
    var found, hasText;
    ghost var ids;
    tables, found, ids, hasText := ForceUnicodeText(formats);
    var i := 0;
    while i < |formats|
      invariant 0 <= i <= |formats| && Lists(tables, ids) && found == ids.Keys && Found(formats, i, ids)
      invariant hasText == (TextPlainUtf8 in ids)
    {
      FoundTogether(formats, i, ids);
      ghost var before := ids;
      tables, found, ids, hasText := ClassifyFormat(Kind(formats[i]), formats[i].id, tables, found, ids, hasText);
      ExtendedAdds(before, Kind(formats[i]), formats[i].id);
      FoundNext(formats, i, before, ids);
      i := i + 1;
    }
  }

  /** Both text types come together with one id, and so do both file list types. */
  lemma TypesComeTogether(formats: seq<Format>, i: nat)
    requires i <= |formats|
    ensures IdFor(formats, i, TextPlainUtf8) == IdFor(formats, i, Utf8String)
    ensures IdFor(formats, i, UriList) == IdFor(formats, i, GnomeCopiedFiles)
    ensures HasUnicodeText(formats) ==> IdFor(formats, i, TextPlainUtf8) == Some(CF_UNICODETEXT)
  {
  }

  /** The k-th format is the first of its kind. */
  ghost predicate IsFirst(formats: seq<Format>, k: nat, kind: Mime) {
    k < |formats| && Kind(formats[k]) == kind && forall j :: 0 <= j < k ==> Kind(formats[j]) != kind
  }

  /** The id of any other type is that of the first format of its kind. */
  lemma {:induction false} FirstOfIffFirst(formats: seq<Format>, kind: Mime, k: nat)
    requires k < |formats|
    ensures IsFirst(formats, k, kind) ==> FirstOf(formats, kind) == Some(formats[k].id)
    ensures FirstOf(formats, kind).None? ==> Kind(formats[k]) != kind
    decreases |formats|
  {
    var n := |formats|;
    if k < n - 1 {
      FirstOfIffFirst(formats[..n - 1], kind, k);
    } else if FirstOf(formats[..n - 1], kind).Some? {
      var first := FirstOfIsThere(formats[..n - 1], kind);
    }
  }

  lemma {:induction false} FirstOfIsThere(formats: seq<Format>, kind: Mime) returns (k: nat)
    requires FirstOf(formats, kind).Some?
    ensures k < |formats| && Kind(formats[k]) == kind && FirstOf(formats, kind) == Some(formats[k].id)
    decreases |formats|
  {
    var n := |formats|;
    if FirstOf(formats[..n - 1], kind).Some? {
      k := FirstOfIsThere(formats[..n - 1], kind);
    } else {
      k := n - 1;
    }
  }

  /** The id of the first format of a kind is what the types it provides are listed with; both text types only
      where CF_UNICODETEXT is not in the list. */
  lemma ListedWithFirst(formats: seq<Format>, kind: Mime, k: nat)
    requires IsFirst(formats, k, kind) && kind !in {NoType, TextPlain, Utf8String, GnomeCopiedFiles}
    ensures kind != TextPlainUtf8 ==> IdFor(formats, |formats|, kind) == Some(formats[k].id)
    ensures kind == UriList ==> IdFor(formats, |formats|, GnomeCopiedFiles) == Some(formats[k].id)
    ensures kind == TextPlainUtf8 && !HasUnicodeText(formats) ==>
              IdFor(formats, |formats|, TextPlainUtf8) == IdFor(formats, |formats|, Utf8String) == Some(formats[k].id)
  {
    FirstOfIffFirst(formats, kind, k);
    assert formats[..|formats|] == formats;
  }

  /** What no format provides is not listed. */
  lemma NotListedWithoutFormat(formats: seq<Format>, kind: Mime)
    requires forall k :: 0 <= k < |formats| ==> Kind(formats[k]) != kind
    requires kind == TextPlainUtf8 ==> !HasUnicodeText(formats)
    ensures kind !in {Utf8String, GnomeCopiedFiles} ==> IdFor(formats, |formats|, kind) == None
    ensures kind == UriList ==> IdFor(formats, |formats|, GnomeCopiedFiles) == None
    ensures kind == TextPlainUtf8 ==> IdFor(formats, |formats|, Utf8String) == None
    ensures IdFor(formats, |formats|, NoType) == IdFor(formats, |formats|, TextPlain) == None
  {
    assert formats[..|formats|] == formats;
    if FirstOf(formats, kind).Some? {
      var k := FirstOfIsThere(formats, kind);
    }
  }
}
