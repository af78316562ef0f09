/** Importing one file as a page: choosing the converter by extension, the
    signature check of Word documents, taking the title from a leading
    level-1 heading, and the fallback to an empty paragraph. The converters
    themselves (markdown to HTML, HTML to ProseMirror JSON, Word to HTML), file
    name sanitising and the database insert are outside the model: their
    outcomes are parameters. */
module ImportContent {
  import opened Wrappers
  import opened Json
  import opened Strings

  newtype byte = x: int | 0 <= x < 256

  /** A ProseMirror node as far as the import looks at it: its type, the
      `attrs.level` value, its inline children and its text. */
  datatype PmNode = PmNode(nodeType: string, level: Option<Json>, content: Option<seq<PmNode>>, text: Option<string>)

  /** A ProseMirror document: its top-level block list (absent or null as
      `None`) beside every other top-level field. */
  datatype PmState = PmState(fields: map<string, Json>, content: Option<seq<PmNode>>)

  /** `{ type: 'paragraph', content: [] }` */
  const EmptyParagraph := PmNode("paragraph", None, Some([]), None)

  /** `prosemirrorState.content ?? []` */
  function Blocks(state: PmState): seq<PmNode> {
    state.content.GetOr([])
  }

  /** The first block is a heading whose level is exactly the number 1. */
  predicate StartsWithTitleHeading(blocks: seq<PmNode>) {
    |blocks| > 0 && blocks[0].nodeType == "heading" && blocks[0].level == Some(JNumber(1))
  }

  /** `heading.content?.[0]?.text ?? null` */
  function HeadingText(heading: PmNode): (r: Option<string>)
    ensures r.Some? <==> heading.content.Some? && |heading.content.value| > 0 && heading.content.value[0].text.Some?
    ensures r.Some? ==> r == heading.content.value[0].text
  {
    if heading.content.Some? && |heading.content.value| > 0 then heading.content.value[0].text else None
  }

  /** The title taken from the document: the text of a leading level-1
      heading, and none otherwise. */
  function ExtractedTitle(state: PmState): (r: Option<string>)
    ensures !StartsWithTitleHeading(Blocks(state)) ==> r.None?
    ensures StartsWithTitleHeading(Blocks(state)) ==> r == HeadingText(Blocks(state)[0])
  {
    if StartsWithTitleHeading(Blocks(state)) then HeadingText(Blocks(state)[0]) else None
  }

  /** The block list of the page: the document's blocks without a leading
      level-1 heading, and one empty paragraph when nothing is left. */
  function ExtractedBody(state: PmState): (r: seq<PmNode>)
    ensures |r| > 0
    ensures var b := Blocks(state);
      if StartsWithTitleHeading(b) then
        (|b| > 1 ==> r == b[1..]) && (|b| == 1 ==> r == [EmptyParagraph])
      else
        (|b| > 0 ==> r == b) && (b == [] ==> r == [EmptyParagraph])
    ensures forall n :: n in r ==> n in Blocks(state) || n == EmptyParagraph
  {
    var b := Blocks(state);
    var rest := if StartsWithTitleHeading(b) then b[1..] else b;
    if rest == [] then [EmptyParagraph] else rest
  }

  /** The heading and the body give back the document whenever something
      was left after the heading, and a document without a title heading is
      kept whole. */
  lemma {:induction false} ExtractionLosesOnlyTheHeading(state: PmState)
    ensures var b := Blocks(state);
      (StartsWithTitleHeading(b) && |b| > 1 ==> [b[0]] + ExtractedBody(state) == b)
      && (!StartsWithTitleHeading(b) && b != [] ==> ExtractedBody(state) == b)
  {
    var b := Blocks(state);
    if StartsWithTitleHeading(b) && |b| > 1 {
      assert b == [b[0]] + b[1..];
    }
  }

  /** `extractTitleAndRemoveHeading`, working on its own copy of the block
      list with `shift` and `push`; the other fields are carried over. */
  method ExtractTitleAndRemoveHeading(state: PmState) returns (title: Option<string>, json: PmState)
    ensures title == ExtractedTitle(state)
    ensures json == PmState(state.fields, Some(ExtractedBody(state)))
  {
    title := None;
    var content := if state.content.Some? then state.content.value else [];
    if |content| > 0 && content[0].nodeType == "heading" && content[0].level == Some(JNumber(1)) {
      var first := content[0];
      if first.content.Some? && |first.content.value| > 0 && first.content.value[0].text.Some? {
        title := first.content.value[0].text;
      }
      content := content[1..];
    }
    if |content| == 0 {
      content := content + [EmptyParagraph];
      assert content == [EmptyParagraph];
    }
    json := state.(content := Some(content));
  }

  /** `title || fileName` */
  function PageTitle(title: Option<string>, fileName: string): (r: string)
    ensures Truthy(title) ==> r == title.value
    ensures !Truthy(title) ==> r == fileName
  {
    if Truthy(title) then title.value else fileName
  }

  /** An Office Open XML file is a ZIP archive: at least four bytes, starting
      with "PK". */
  predicate HasZipSignature(buffer: seq<byte>) {
    |buffer| >= 4 && buffer[0] == 0x50 && buffer[1] == 0x4B
  }

  /** What the chosen converter, run on the file, gives: a thrown error, or a
      state that may be null (`None`). */
  type Conversion = Result<Option<PmState>, string>

  /** The converter the (already lower-cased) extension selects, as tested in
      the source: Markdown, then HTML, then Word; any other extension runs no
      converter and yields no state. A Word file without the signature is
      rejected before conversion; every failure becomes 'Error processing
      file content'. */
  function ProcessFile(ext: string, buffer: seq<byte>, conversion: Conversion): (r: Result<Option<PmState>, string>)
    ensures r.Err? ==> r.error == "Error processing file content"
    ensures (EndsWith(ext, ".md") || EndsWith(ext, ".html")) ==> (r.Err? <==> conversion.Err?)
    ensures !EndsWith(ext, ".md") && !EndsWith(ext, ".html") && EndsWith(ext, ".docx") ==>
      (r.Err? <==> !HasZipSignature(buffer) || conversion.Err?)
    ensures !EndsWith(ext, ".md") && !EndsWith(ext, ".html") && !EndsWith(ext, ".docx") ==> r == Ok(None)
    ensures r.Ok? && r.value.Some? ==> conversion == Ok(r.value)
  {
    if EndsWith(ext, ".md") || EndsWith(ext, ".html") then
      if conversion.Err? then Err("Error processing file content") else Ok(conversion.value)
    else if EndsWith(ext, ".docx") then
      if !HasZipSignature(buffer) || conversion.Err? then Err("Error processing file content")
      else Ok(conversion.value)
    else Ok(None)
  }

  /** The row `importPage` inserts, as far as the import decides it. */
  datatype NewPage = NewPage(title: string, content: PmState, parentPageId: Option<string>)

  /** `importPage` once the file is read: `extension` is the file's extension as
      `path.extname` gives it, `fileName` the sanitised base name, and
      `insertOk` whether the position lookup and insert succeed. */
  function ImportPage(extension: string, buffer: seq<byte>, fileName: string, targetParentId: Option<string>,
                      conversion: Conversion, insertOk: bool): (r: Result<NewPage, string>)
    ensures var p := ProcessFile(ToLower(extension), buffer, conversion);
      (p.Err? ==> r == Err("Error processing file content"))
      && (p == Ok(None) ==> r == Err("Failed to create ProseMirror state"))
      && (p.Ok? && p.value.Some? && !insertOk ==> r == Err("Failed to create imported page"))
      && (p.Ok? && p.value.Some? && insertOk ==> r.Ok?)
    ensures r.Ok? ==>
      exists s :: conversion == Ok(Some(s)) && r.value == NewPage(PageTitle(ExtractedTitle(s), fileName),
        PmState(s.fields, Some(ExtractedBody(s))), if Truthy(targetParentId) then targetParentId else None)
  {
    match ProcessFile(ToLower(extension), buffer, conversion)
    case Err(e) => Err(e)
    case Ok(None) => Err("Failed to create ProseMirror state")
    case Ok(Some(s)) =>
      if insertOk then
        Ok(NewPage(PageTitle(ExtractedTitle(s), fileName), PmState(s.fields, Some(ExtractedBody(s))),
          if Truthy(targetParentId) then targetParentId else None))
      else Err("Failed to create imported page")
  }

  /** The extension is compared without regard to ASCII case. */
  lemma {:induction false} ImportIgnoresExtensionCase(extension: string, buffer: seq<byte>, fileName: string, targetParentId: Option<string>,
                                   conversion: Conversion, insertOk: bool)
    ensures ImportPage(ToLower(extension), buffer, fileName, targetParentId, conversion, insertOk)
         == ImportPage(extension, buffer, fileName, targetParentId, conversion, insertOk)
  {
    ToLowerIdempotent(extension);
  }

  /** A `.docx` file that does not start with the ZIP signature is never
      converted and fails with 'Error processing file content'. */
  lemma {:induction false} DocxWithoutSignatureRejected(extension: string, buffer: seq<byte>, fileName: string,
                                     targetParentId: Option<string>, conversion: Conversion, insertOk: bool)
    requires ToLower(extension) == ".docx" && !HasZipSignature(buffer)
    ensures ImportPage(extension, buffer, fileName, targetParentId, conversion, insertOk)
         == Err("Error processing file content")
  {
    var e := ToLower(extension);
    assert e[|e| - 3..] == "ocx";
    assert e[|e| - 5..] != ".html" by { assert e[1] != ".html"[1]; }
  }

  /** An extension the import does not know produces no state. */
  lemma {:induction false} UnknownExtensionRejected(extension: string, buffer: seq<byte>, fileName: string,
                                 targetParentId: Option<string>, conversion: Conversion, insertOk: bool)
    requires !EndsWith(ToLower(extension), ".md") && !EndsWith(ToLower(extension), ".html")
    requires !EndsWith(ToLower(extension), ".docx")
    ensures ImportPage(extension, buffer, fileName, targetParentId, conversion, insertOk)
         == Err("Failed to create ProseMirror state")
  {
  }

  /** For an extension as `path.extname` returns it (one dot, at the front),
      the suffix tests of the dispatch are equality tests. */
  lemma {:induction false} SuffixTestIsEquality(ext: string, known: string)
    requires |ext| > 0 && ext[0] == '.' && '.' !in ext[1..]
    requires |known| > 0 && known[0] == '.'
    ensures EndsWith(ext, known) <==> ext == known
  {
  }

  /** A successful import names the page after its title heading when it has
      non-empty text, and after the file otherwise; the page is never empty. */
  lemma {:induction false} ImportedPageShape(extension: string, buffer: seq<byte>, fileName: string, targetParentId: Option<string>,
                          s: PmState, insertOk: bool)
    requires ImportPage(extension, buffer, fileName, targetParentId, Ok(Some(s)), insertOk).Ok?
    ensures var page := ImportPage(extension, buffer, fileName, targetParentId, Ok(Some(s)), insertOk).value;
      page.content.content.Some? && |page.content.content.value| > 0
      && page.content.fields == s.fields
      && (Truthy(ExtractedTitle(s)) ==> page.title == ExtractedTitle(s).value)
      && (!Truthy(ExtractedTitle(s)) ==> page.title == fileName)
  {
  }
}
