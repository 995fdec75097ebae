/** The decisions of the renderer's markdown element table
    (`markdownComponents.code` and `markdownComponents.a` in
    components/Stardoc.tsx): which language a code block is highlighted as,
    whether it is highlighted at all, and which links open in a new tab. */
module Markdown {
  import opened Basics

  /** `\w`: `[A-Za-z0-9_]`. */
  predicate IsWordChar(c: char) {
    'a' <= c <= 'z' || 'A' <= c <= 'Z' || '0' <= c <= '9' || c == '_'
  }

  /** What the greedy group `(\w+)` captures at the start of `s`: the longest
      prefix of word characters. */
  function WordPrefix(s: string): (w: string)
    ensures |w| <= |s| && w == s[..|w|]
    ensures forall i :: 0 <= i < |w| ==> IsWordChar(w[i])
    ensures |w| < |s| ==> !IsWordChar(s[|w|])
  {
    if s != [] && IsWordChar(s[0]) then [s[0]] + WordPrefix(s[1..]) else []
  }

  const LanguageMarker: string := "language-"

  /** Whether `/language-(\w+)/` matches at position `p` of `s`, and its capture. */
  function MatchAt(s: string, p: nat): Option<string>
    requires p <= |s|
  {
    var rest := s[p..];
    if StartsWith(rest, LanguageMarker) && |rest| > |LanguageMarker| && IsWordChar(rest[|LanguageMarker|])
    then Some(WordPrefix(rest[|LanguageMarker|..]))
    else None
  }

  /** The leftmost position at or after `from` where the pattern matches,
      which is where `RegExp.exec` reports its match. */
  function FirstMatch(s: string, from: nat): (p: Option<nat>)
    requires from <= |s|
    ensures p.Some? ==> from <= p.value <= |s| && MatchAt(s, p.value).Some?
    ensures p.Some? ==> forall q :: from <= q < p.value ==> MatchAt(s, q).None?
    ensures p.None? ==> forall q :: from <= q <= |s| ==> MatchAt(s, q).None?
    decreases |s| - from
  {
    if MatchAt(s, from).Some? then Some(from)
    else if from == |s| then None
    else FirstMatch(s, from + 1)
  }

  /** `match ? match[1] : ''` for `match = /language-(\w+)/.exec(className || '')`;
      an absent class name is the empty string. */
  function CapturedLanguage(className: string): string {
    match FirstMatch(className, 0)
    case None => ""
    case Some(p) => MatchAt(className, p).value
  }

  /** Starlark, Bazel and bzl code is highlighted with the Python grammar. */
  function Alias(language: string): string {
    if language == "starlark" || language == "bazel" || language == "bzl" then "python" else language
  }

  function Language(className: string): string {
    Alias(CapturedLanguage(className))
  }

  /** The captured language is empty exactly when the pattern matches nowhere;
      otherwise it is a run of word characters that follows `language-` in
      the class name at the leftmost matching position, and the run is maximal. */
  lemma CapturedLanguageSpec(className: string)
    ensures CapturedLanguage(className) == "" <==>
              forall q :: 0 <= q <= |className| ==> MatchAt(className, q).None?
    ensures CapturedLanguage(className) != "" ==>
              var p := FirstMatch(className, 0).value;
              var w := CapturedLanguage(className);
              && p + |LanguageMarker| + |w| <= |className|
              && className[p..p + |LanguageMarker| + |w|] == LanguageMarker + w
              && (forall i :: 0 <= i < |w| ==> IsWordChar(w[i]))
              && (p + |LanguageMarker| + |w| < |className| ==> !IsWordChar(className[p + |LanguageMarker| + |w|]))
  {
    var m := FirstMatch(className, 0);
    if m.Some? {
      var p := m.value;
      var rest := className[p..];
      var w := WordPrefix(rest[|LanguageMarker|..]);
      assert |w| > 0;
      assert rest[..|LanguageMarker|] == LanguageMarker;
      assert rest[|LanguageMarker|..][..|w|] == w;
      assert className[p..p + |LanguageMarker| + |w|] == rest[..|LanguageMarker| + |w|];
      assert rest[..|LanguageMarker| + |w|] == LanguageMarker + w;
    }
  }

  /** The aliases never reach the highlighter; exactly they and python become python. */
  lemma AliasSpec(className: string)
    ensures Language(className) != "starlark" && Language(className) != "bazel" && Language(className) != "bzl"
    ensures Language(className) == "python" <==>
              CapturedLanguage(className) in {"python", "starlark", "bazel", "bzl"}
    ensures Language(className) == "" <==> CapturedLanguage(className) == ""
  {
  }

  /** `.replace(/\n$/, '')`: drops one newline at the very end, if there is one. */
  function StripTrailingNewline(s: string): (r: string)
    ensures EndsWith(s, "\n") ==> r + "\n" == s
    ensures !EndsWith(s, "\n") ==> r == s
  {
    if |s| > 0 && s[|s| - 1] == '\n' then s[..|s| - 1] else s
  }

  /** What the `code` component emits. */
  datatype CodeView =
    | Highlighted(language: string, text: string)   // <SyntaxHighlighter language=...>
    | PlainCode(text: string)                       // <code>

  /** `markdownComponents.code` */
  function RenderCode(inline: bool, className: string, children: string): (r: CodeView)
    ensures r.Highlighted? <==> !inline && Language(className) != ""
    ensures r.Highlighted? ==> r.language == Language(className)
    ensures r.Highlighted? && EndsWith(children, "\n") ==> r.text + "\n" == children
    ensures r.Highlighted? && !EndsWith(children, "\n") ==> r.text == children
    ensures r.PlainCode? ==> r.text == children
  {
    var language := Language(className);
    if !inline && language != "" then Highlighted(language, StripTrailingNewline(children))
    else PlainCode(children)
  }

  /** `href && (href.startsWith('http') || href.startsWith('//'))`; None is an absent href. */
  predicate IsExternal(href: Option<string>) {
    href.Some? && href.value != "" && (StartsWith(href.value, "http") || StartsWith(href.value, "//"))
  }

  /** What the `a` component emits; None is an absent attribute. */
  datatype LinkView = LinkView(href: Option<string>, target: Option<string>, rel: Option<string>)

  /** `markdownComponents.a` */
  function RenderLink(href: Option<string>): (r: LinkView)
    ensures r.href == href
    ensures r.target.Some? <==> IsExternal(href)
    ensures r.rel.Some? <==> IsExternal(href)
    ensures r.target.Some? ==> r.target == Some("_blank") && r.rel == Some("noopener noreferrer")
  {
    var external := IsExternal(href);
    LinkView(href,
             if external then Some("_blank") else None,
             if external then Some("noopener noreferrer") else None)
  }

  /** The prefix test is literal: any href starting with `http` counts as external,
      including a relative one, while other schemes do not. */
  lemma ExternalLinkExamples()
    ensures IsExternal(Some("https://bazel.build"))
    ensures IsExternal(Some("//example.com/x"))
    ensures IsExternal(Some("http_archive.md"))
    ensures !IsExternal(Some("#rule-foo"))
    ensures !IsExternal(Some("mailto:a@b.c"))
    ensures !IsExternal(Some(""))
    ensures !IsExternal(None)
  {
    assert "#rule-foo"[..4][0] != "http"[0] && "#rule-foo"[..2][0] != "//"[0];
    assert "mailto:a@b.c"[..4][0] != "http"[0] && "mailto:a@b.c"[..2][0] != "//"[0];
  }
}
