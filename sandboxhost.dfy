/** components/Sandbox.backup.tsx: the host component that loads the generated code into an
    isolated frame, falls back to an error document when the code is unusable, and shows the
    errors the frame reports back. */
module SandboxHost {
  import opened Wrappers
  import opened Text
  import opened SandboxTemplate
  import opened SandboxDocuments

  /** The `code` prop: a string, or a value of some other type. */
  datatype CodeProp = Str(s: string) | NotString

  /** `event.data` of a window message: absent (`null`/`undefined`), or an object whose
      `type` and `error` fields may each be missing. */
  datatype MessageData = NoData | Data(kind: Option<string>, error: Option<string>)

  /** The `error` and `srcDoc` state fields together. */
  datatype View = View(error: Option<string>, srcDoc: string)

  const InvalidCode: string := "유효하지 않은 코드입니다."
  const SandboxError: string := "sandbox-error"

  /** The frame's `sandbox` attribute: scripts only, so no same-origin access, no forms,
      no navigation of the host. */
  const FramePermissions: seq<string> := ["allow-scripts"]

  /** `!code || typeof code !== "string"` does not fire. */
  predicate ValidCode(code: CodeProp) {
    code.Str? && code.s != ""
  }

  /** doc is the page framed by page: the inline script's template literal, read as
      JavaScript reads it, is exactly js. (Whether evaluating js succeeds is not modelled.) */
  predicate LiteralReadsBack(doc: string, page: Frame, js: string) {
    ReadsBack(doc, page.head, page.tail, js)
  }

  /** doc is the error page framed by page showing message: the text between the frame's
      head and tail holds no markup and, with entities decoded, is the message. */
  predicate ShowsError(doc: string, page: Frame, message: string) {
    StartsAt(doc, 0, page.head) && EndsWith(doc, page.tail)
    && |doc| >= |page.head| + |page.tail|
    && var m := doc[|page.head|..|doc| - |page.tail|];
    '<' !in m && '>' !in m && DecodeAngles(m) == message
  }

  /** The literal of the component page built from a frame holds the code with its default
      export exposed. */
  lemma EmbedReadsBack(page: Frame, code: string)
    requires |page.tail| > 0 && page.tail[0] == '`'
    ensures LiteralReadsBack(EmbedInPage(page.head, code, page.tail), page, ExposeComponent(code))
  {
  }

  /** What the `[code]` effect leaves in the two state fields, with page and errorPage the
      frames of the component page and of the error page. An unusable prop gives the
      invalid-code message and the error page carrying it; usable code gives the page whose
      script is the normalized code with its default export exposed, and no error. */
  function Outcome(code: CodeProp, page: Frame, errorPage: Frame): (v: View)
    requires |page.tail| > 0 && page.tail[0] == '`'
    ensures v.error.Some? <==> !ValidCode(code)
    ensures !ValidCode(code) ==>
      v.error == Some(InvalidCode) && ShowsError(v.srcDoc, errorPage, InvalidCode)
    ensures ValidCode(code) ==>
      LiteralReadsBack(v.srcDoc, page, ExposeComponent(NormalizeCode(code.s)))
  {
    if ValidCode(code) then
      EmbedReadsBack(page, NormalizeCode(code.s));
      View(None, EmbedInPage(page.head, NormalizeCode(code.s), page.tail))
    else
      assert '&' !in InvalidCode;
      View(Some(InvalidCode), ShowMessage(errorPage.head, InvalidCode, errorPage.tail))
  }

  /** With the frames the design tokens give, usable code yields buildSrcDoc(code). */
  lemma SourceDocIsBuilt(code: CodeProp, theme: Theme)
    requires ValidCode(code)
    ensures Outcome(code, SourceFrame(theme), ErrorFrame(theme)).srcDoc == BuildSrcDoc(code.s, theme)
  {
  }

  /** For normalized code with no backslash, backtick, `$` or carriage return, the document
      is also buildSrcDoc as the source writes it, with its backtick-only escaping. */
  lemma AsWrittenDocShown(code: CodeProp, theme: Theme)
    requires ValidCode(code) && PlainForLiteral(NormalizeCode(code.s))
    ensures Outcome(code, SourceFrame(theme), ErrorFrame(theme)).srcDoc
      == BuildSrcDocAsWritten(code.s, theme)
  {
    SourceDocIsBuilt(code, theme);
    AsWrittenAgrees(code.s, theme);
  }

  /** With the frames the design tokens give, an unusable prop yields
      buildErrorSrcDoc(message). */
  lemma ErrorDocIsBuilt(code: CodeProp, theme: Theme)
    requires !ValidCode(code)
    ensures Outcome(code, SourceFrame(theme), ErrorFrame(theme)).srcDoc
      == BuildErrorSrcDoc(InvalidCode, theme)
  {
  }

  /** `event.data?.type === "sandbox-error"`. */
  predicate IsSandboxError(data: MessageData) {
    data.Data? && data.kind == Some(SandboxError)
  }

  /** The `error` field after one window message: the reported error for a sandbox-error
      message, the old value for every other message. */
  function AfterMessage(error: Option<string>, data: MessageData): (r: Option<string>)
    ensures r != error ==> IsSandboxError(data)
    ensures IsSandboxError(data) ==> r == data.error
  {
    if IsSandboxError(data) then data.error else error
  }

  /** `{error && ...}`: the banner shows when the error is a non-empty string. */
  predicate ShowsBanner(error: Option<string>) {
    error.Some? && error.value != ""
  }

  /** After the effect, the banner is up exactly when the code was unusable. */
  lemma BannerIffInvalid(code: CodeProp, page: Frame, errorPage: Frame)
    requires |page.tail| > 0 && page.tail[0] == '`'
    ensures ShowsBanner(Outcome(code, page, errorPage).error) <==> !ValidCode(code)
  {
    assert |InvalidCode| > 0;
  }

  class Sandbox {
    /** The fixed text of the two documents, fixed by the design tokens. */
    const page: Frame
    const errorPage: Frame
    var error: Option<string>
    var srcDoc: string

    predicate Valid() {
      |page.tail| > 0 && page.tail[0] == '`'
    }

    /** `useState<string | null>(null)` and `useState<string>("")`, with the frames of the
        two documents, SourceFrame and ErrorFrame of the design tokens. */
    constructor(page: Frame, errorPage: Frame)
      requires |page.tail| > 0 && page.tail[0] == '`'
      ensures this.page == page && this.errorPage == errorPage
      ensures Valid() && error == None && srcDoc == ""
    {
      this.page := page;
      this.errorPage := errorPage;
      error := None;
      srcDoc := "";
    }

    /** The effect run whenever `code` changes. */
    method CodeChanged(code: CodeProp)
      requires Valid()
      modifies this
      ensures View(error, srcDoc) == Outcome(code, page, errorPage)
    {
      if !ValidCode(code) {
        error := Some(InvalidCode);
        srcDoc := ShowMessage(errorPage.head, InvalidCode, errorPage.tail);
      } else {
        var doc := EmbedInPage(page.head, NormalizeCode(code.s), page.tail);
        srcDoc := doc;
        error := None;
      }
    }

    /** The window `message` listener. */
    method OnMessage(data: MessageData)
      modifies this
      ensures error == AfterMessage(old(error), data) && srcDoc == old(srcDoc)
    {
      if IsSandboxError(data) {
        error := data.error;
      }
    }
  }
}
