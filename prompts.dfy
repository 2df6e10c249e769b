/** Prompt construction of lib/prompt-templates.ts: the template classifier, the user and system
    prompts sent to the model, and the style-preset lookup. */
module PromptTemplates {
  import opened Wrappers
  import opened Text

  datatype TemplateType = Landing | Form | Card | General {
    /** The template's name as the source spells it. */
    function Name(): string {
      match this
      case Landing => "landing"
      case Form => "form"
      case Card => "card"
      case General => "general"
    }

    /** `template.toUpperCase()`. */
    function UpperName(): string {
      match this
      case Landing => "LANDING"
      case Form => "FORM"
      case Card => "CARD"
      case General => "GENERAL"
    }
  }

  /** The design tokens the prompts quote: colour values by name, and the names of the radius
      and spacing scales in the order the token file lists them. */
  datatype DesignTokens = DesignTokens(colors: map<string, string>, radius: seq<string>,
                                       spacing: seq<string>)

  // ---------------------------------------------------------------------------------------
  // detectTemplateType

  const LandingKeywords: seq<string> := ["landing", "hero", "홈페이지", "메인 페이지", "랜딩"]
  const FormKeywords: seq<string> :=
    ["form", "login", "signup", "register", "input", "폼", "로그인", "회원가입", "입력"]
  const CardKeywords: seq<string> := ["card", "profile", "product", "카드", "프로필", "상품"]

  predicate IncludesAny(s: string, keywords: seq<string>) {
    exists k :: 0 <= k < |keywords| && Contains(s, keywords[k])
  }

  /** The first keyword family that occurs in the lower-cased prompt decides the template. */
  function DetectTemplateType(prompt: string): (r: TemplateType)
    ensures var p := ToLower(prompt);
      && (r == Landing <==> IncludesAny(p, LandingKeywords))
      && (r == Form <==> !IncludesAny(p, LandingKeywords) && IncludesAny(p, FormKeywords))
      && (r == Card <==> !IncludesAny(p, LandingKeywords) && !IncludesAny(p, FormKeywords)
                         && IncludesAny(p, CardKeywords))
      && (r == General <==> !IncludesAny(p, LandingKeywords) && !IncludesAny(p, FormKeywords)
                            && !IncludesAny(p, CardKeywords))
  {
    var lowerPrompt := ToLower(prompt);
    if IncludesAny(lowerPrompt, LandingKeywords) then Landing
    else if IncludesAny(lowerPrompt, FormKeywords) then Form
    else if IncludesAny(lowerPrompt, CardKeywords) then Card
    else General
  }

  lemma {:induction false} ToLowerIdempotent(s: string)
    ensures ToLower(ToLower(s)) == ToLower(s)
  {
    forall k | 0 <= k < |s|
      ensures ToLower(ToLower(s))[k] == ToLower(s)[k]
    {
      assert !IsUpper(ToLower(s)[k]);
    }
  }

  /** The classification sees the prompt only through its lower-case form: prompts that differ
      only in letter case get the same template. */
  lemma DetectIgnoresCase(a: string, b: string)
    requires ToLower(a) == ToLower(b)
    ensures DetectTemplateType(a) == DetectTemplateType(b)
    ensures DetectTemplateType(a) == DetectTemplateType(ToLower(a))
  {
    ToLowerIdempotent(a);
  }

  /** A prompt mentioning a landing keyword is a landing page even when it also names a form
      or a card. */
  lemma LandingTakesPriority(prompt: string, k: nat)
    requires k < |LandingKeywords| && Contains(ToLower(prompt), LandingKeywords[k])
    ensures DetectTemplateType(prompt) == Landing
  {
  }

  // ---------------------------------------------------------------------------------------
  // buildUserPrompt

  function TemplateHint(t: TemplateType): string {
    match t
    case Landing => "Create full-page hero with CTA, features, testimonials."
    case Form => "Style inputs with bg-input, border-border, rounded-md. Include validation."
    case Card => "Use bg-muted, border, rounded-lg, shadow-md. Add hover effects."
    case General => "Modern, responsive UI with design tokens."
  }

  lemma UpperNameIsUpperCase(t: TemplateType)
    ensures t.UpperName() == ToUpper(t.Name())
  {
    match t
    case Landing => assert ToUpper("landing") == "LANDING";
    case Form => assert ToUpper("form") == "FORM";
    case Card => assert ToUpper("card") == "CARD";
    case General => assert ToUpper("general") == "GENERAL";
  }

  function TemplateLine(t: TemplateType): string {
    "TEMPLATE: " + t.UpperName()
  }

  /** Everything the user prompt holds before the user's own words. */
  function UserPromptHead(t: TemplateType): (r: string)
    ensures |TemplateLine(t)| <= |r| && r[..|TemplateLine(t)|] == TemplateLine(t)
  {
    var rest := "\nHINT: " + TemplateHint(t) + "\n\nUSER REQUEST:\n";
    PrefixOfConcat(TemplateLine(t), rest);
    TemplateLine(t) + rest
  }

  const UserPromptTail := "\n\nREQUIREMENTS:\n- Use design tokens colors (bg, fg, primary, muted, etc.)\n- Responsive + accessible\n- Smooth transitions\n- NO external resources"

  const FixRequiredPrefix := "\n\n⚠️ FIX REQUIRED: "

  /** The retry reason, when one is given and it is not empty (a falsy reason adds nothing). */
  predicate HasRetryReason(retryReason: Option<string>) {
    retryReason.Some? && retryReason.value != ""
  }

  /** r is head, the user's words and tail in that order, followed by the fix request naming
      the retry reason when one is given and by nothing otherwise. */
  predicate FramesPrompt(r: string, head: string, prompt: string, tail: string,
                         retryReason: Option<string>) {
    var a := |head| + |prompt|;
    var b := a + |tail|;
    && |r| == b + (if HasRetryReason(retryReason) then |FixRequiredPrefix| + |retryReason.value| else 0)
    && r[..|head|] == head && r[|head|..a] == prompt && r[a..b] == tail
    && (HasRetryReason(retryReason) ==> r[b..] == FixRequiredPrefix + retryReason.value)
  }

  /** The user's words between a head and a tail, then the fix request when a retry reason is
      given. */
  function Framed(head: string, prompt: string, tail: string, retryReason: Option<string>)
    : (r: string)
    ensures FramesPrompt(r, head, prompt, tail, retryReason)
  {
    var userPrompt := head + prompt + tail;
    assert userPrompt[..|head|] == head;
    assert userPrompt[|head|..|head| + |prompt|] == prompt;
    assert userPrompt[|head| + |prompt|..] == tail;
    if HasRetryReason(retryReason) then
      var fix := FixRequiredPrefix + retryReason.value;
      var r := userPrompt + fix;
      assert r[..|userPrompt|] == userPrompt;
      assert r[|userPrompt|..] == fix;
      r
    else
      userPrompt
  }

  /** `buildUserPrompt(prompt, tokens, template, retryReason)`; the design tokens are not used
      by the source and are not a parameter here. */
  function BuildUserPrompt(prompt: string, template: TemplateType, retryReason: Option<string>)
    : (r: string)
    ensures FramesPrompt(r, UserPromptHead(template), prompt, UserPromptTail, retryReason)
  {
    Framed(UserPromptHead(template), prompt, UserPromptTail, retryReason)
  }

  /** A retry prompt is the first attempt's prompt with the fix request appended; an empty
      reason adds nothing. */
  lemma FramedRetry(head: string, prompt: string, tail: string, reason: string)
    ensures reason != "" ==>
      Framed(head, prompt, tail, Some(reason)) == Framed(head, prompt, tail, None) + FixRequiredPrefix + reason
    ensures Framed(head, prompt, tail, Some("")) == Framed(head, prompt, tail, None)
  {
    AppendAssoc(head + prompt + tail, FixRequiredPrefix, reason);
  }

  /** The user prompt begins with the template's name in capitals. */
  lemma UserPromptNamesTemplate(prompt: string, template: TemplateType, retryReason: Option<string>)
    ensures StartsAt(BuildUserPrompt(prompt, template, retryReason), 0, TemplateLine(template))
  {
    var r := BuildUserPrompt(prompt, template, retryReason);
    PrefixOfPrefix(r, UserPromptHead(template), TemplateLine(template));
    assert r[0..] == r;
  }

  // ---------------------------------------------------------------------------------------
  // buildSystemPrompt

  const CoreColorKeys: seq<string> :=
    ["bg", "fg", "primary", "secondary", "muted", "accent", "destructive", "border"]

  /** `colors[key]` inside a template literal: a missing key prints as `undefined`. */
  function ColorValue(colors: map<string, string>, key: string): string {
    if key in colors then colors[key] else "undefined"
  }

  function ColorEntries(colors: map<string, string>, keys: seq<string>): (r: seq<string>)
    ensures |r| == |keys|
    ensures forall i :: 0 <= i < |keys| ==> r[i] == keys[i] + "=\"" + ColorValue(colors, keys[i]) + "\""
  {
    if |keys| == 0 then [] else
      [keys[0] + "=\"" + ColorValue(colors, keys[0]) + "\""] + ColorEntries(colors, keys[1..])
  }

  /** The first six spacing names (fewer when the scale is shorter). */
  function ShownSpacing(spacing: seq<string>): (r: seq<string>)
    ensures |r| <= 6 && r <= spacing
    ensures |spacing| <= 6 ==> r == spacing
  {
    if |spacing| <= 6 then spacing else spacing[..6]
  }

  const SystemPromptHead := "You are a React component generator. Create modern, beautiful UI components.\n\nRULES:\n1. Output format: \"export default function ComponentName() {...}\"\n2. Use plain JavaScript (NO TypeScript types like : Type)\n3. NO import statements - hooks already available: useState, useEffect, useRef, useCallback, useMemo\n4. NO external images/URLs - use Tailwind bg-* or placeholder colors\n5. NO fetch/axios/network requests\n6. Use semantic HTML + ARIA for accessibility\n\nDESIGN TOKENS:\nColors: "

  const SystemPromptTail := "\n\nTAILWIND CLASSES:\n- Colors: bg-{color}, text-{color}, border-{color}\n- Layout: flex, grid, relative, absolute\n- Spacing: p-*, m-*, gap-*, space-*\n- Sizing: w-full, h-screen, max-w-*\n- Effects: hover:*, transition-*, opacity-*, scale-*\n- Standard utilities available\n\nOUTPUT:\nReturn ONLY the code. NO markdown, NO explanations, NO ``` blocks."

  /** The token section of the system prompt: the eight core colours in their fixed order, every
      radius name, and at most six spacing names. */
  function TokenSection(tokens: DesignTokens): string {
    Join(ColorEntries(tokens.colors, CoreColorKeys), " ")
    + "\nRadius: " + Join(tokens.radius, ", ")
    + "\nSpacing: " + Join(ShownSpacing(tokens.spacing), ", ")
  }

  function BuildSystemPrompt(tokens: DesignTokens): (r: string)
    ensures StartsAt(r, 0, SystemPromptHead)
    ensures EndsWith(r, SystemPromptTail)
    ensures |r| == |SystemPromptHead| + |TokenSection(tokens)| + |SystemPromptTail|
    ensures r[|SystemPromptHead|..|r| - |SystemPromptTail|] == TokenSection(tokens)
  {
    Enclose(SystemPromptHead, TokenSection(tokens), SystemPromptTail)
  }

  /** The colour list has exactly the eight core keys, in their fixed order, each quoting its
      value; the spacing list is a prefix of at most six of the scale's names. */
  lemma SystemPromptTokenLists(tokens: DesignTokens)
    ensures |ColorEntries(tokens.colors, CoreColorKeys)| == 8
    ensures forall i :: 0 <= i < 8 ==>
      StartsAt(ColorEntries(tokens.colors, CoreColorKeys)[i], 0, CoreColorKeys[i] + "=\"")
    ensures |ShownSpacing(tokens.spacing)| == if |tokens.spacing| < 6 then |tokens.spacing| else 6
  {
    var entries := ColorEntries(tokens.colors, CoreColorKeys);
    forall i | 0 <= i < 8
      ensures StartsAt(entries[i], 0, CoreColorKeys[i] + "=\"")
    {
      var lit := CoreColorKeys[i] + "=\"";
      assert entries[i] == lit + ColorValue(tokens.colors, CoreColorKeys[i]) + "\"";
      assert entries[i][..|lit|] == lit;
    }
  }

  /** The token section, which sits between the system prompt's fixed head and tail, opens
      with the colour list and the radius heading and closes with the spacing list. */
  lemma SystemPromptSections(tokens: DesignTokens)
    ensures StartsAt(TokenSection(tokens), 0,
                     Join(ColorEntries(tokens.colors, CoreColorKeys), " ") + "\nRadius: ")
    ensures EndsWith(TokenSection(tokens), "\nSpacing: " + Join(ShownSpacing(tokens.spacing), ", "))
  {
    var colors := Join(ColorEntries(tokens.colors, CoreColorKeys), " ") + "\nRadius: ";
    var radius := Join(tokens.radius, ", ");
    var shown := Join(ShownSpacing(tokens.spacing), ", ");
    AppendAssoc(colors + radius, "\nSpacing: ", shown);
    SectionEnds(colors, radius, "\nSpacing: " + shown);
  }

  // A text made of three parts opens with the first and ends with the last.
  lemma SectionEnds(a: string, b: string, c: string)
    ensures StartsAt(a + b + c, 0, a) && EndsWith(a + b + c, c)
  {
    assert (a + b + c)[0..] == a + b + c;
    assert (a + b + c)[|a + b|..] == c;
  }

  // ---------------------------------------------------------------------------------------
  // getStylePresetContext

  const DefaultPreset := "Dark theme with modern, minimalist aesthetics"

  const Presets: map<string, string> := map[
    "default" := DefaultPreset,
    "light" := "Light theme with clean, bright aesthetics",
    "modern" := "Modern theme with bold colors and strong contrasts"
  ]

  function GetStylePresetContext(style: string): (r: string)
    ensures style in Presets ==> r == Presets[style]
    ensures style !in Presets ==> r == DefaultPreset
    ensures r != ""
  {
    if style in Presets && Presets[style] != "" then Presets[style] else Presets["default"]
  }
}
