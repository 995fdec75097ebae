/** The anchor function of the document renderer (`generateAnchorId` in
    components/Stardoc.tsx): every section's element id, the URL fragment that
    deep-links to it, and the copy-link target. */
module Anchors {

  /** The number of `/` characters the pattern `^\/+` matches. */
  function LeadingSlashes(s: string): (n: nat)
    ensures n <= |s|
    ensures forall i :: 0 <= i < n ==> s[i] == '/'
    ensures n < |s| ==> s[n] != '/'
  {
    if s != [] && s[0] == '/' then 1 + LeadingSlashes(s[1..]) else 0
  }

  /** `.replace(/^\/+/, '')` */
  function StripLeadingSlashes(s: string): (r: string)
    ensures r == s[LeadingSlashes(s)..]
  {
    if s != [] && s[0] == '/' then StripLeadingSlashes(s[1..]) else s
  }

  /** The class `[a-zA-Z0-9-_]`. */
  predicate IsAnchorChar(c: char) {
    'a' <= c <= 'z' || 'A' <= c <= 'Z' || '0' <= c <= '9' || c == '-' || c == '_'
  }

  /** The characters an anchor consists of: `[a-z0-9_-]`. */
  predicate IsLowerAnchorChar(c: char) {
    'a' <= c <= 'z' || '0' <= c <= '9' || c == '-' || c == '_'
  }

  function SafeChar(c: char): char {
    if IsAnchorChar(c) then c else '-'
  }

  /** `.replace(/[^a-zA-Z0-9-_]/g, '-')`: a one-for-one substitution. */
  function ReplaceUnsafe(s: string): (r: string)
    ensures |r| == |s|
    ensures forall i :: 0 <= i < |s| ==> r[i] == SafeChar(s[i])
  {
    if s == [] then [] else [SafeChar(s[0])] + ReplaceUnsafe(s[1..])
  }

  /** Lower-casing of one character. Only ASCII reaches it: every other
      character has already been replaced by `-`. */
  function LowerChar(c: char): char {
    if 'A' <= c <= 'Z' then (c as int + 32) as char else c
  }

  /** `.toLowerCase()` on a string of anchor characters. */
  function ToLower(s: string): (r: string)
    ensures |r| == |s|
    ensures forall i :: 0 <= i < |s| ==> r[i] == LowerChar(s[i])
  {
    if s == [] then [] else [LowerChar(s[0])] + ToLower(s[1..])
  }

  /** `cleanName` */
  function CleanName(name: string): string {
    ToLower(ReplaceUnsafe(StripLeadingSlashes(name)))
  }

  /** `generateAnchorId(type, name)` */
  function AnchorId(kind: string, name: string): string {
    if kind == "file" then CleanName(name) else kind + "-" + CleanName(name)
  }

  /** Cleaning drops the leading slashes and then substitutes character for
      character: the cleaned length is the input length minus the leading `/`. */
  lemma CleanNameAt(name: string)
    ensures |CleanName(name)| == |name| - LeadingSlashes(name)
    ensures forall i :: 0 <= i < |CleanName(name)| ==>
              CleanName(name)[i] == LowerChar(SafeChar(name[LeadingSlashes(name) + i]))
  {
  }

  /** A file anchor consists only of `[a-z0-9_-]`. */
  lemma FileAnchorCharset(name: string)
    ensures forall i :: 0 <= i < |AnchorId("file", name)| ==> IsLowerAnchorChar(AnchorId("file", name)[i])
  {
    CleanNameAt(name);
  }

  /** Any other kind prefixes the cleaned name with the kind and a dash. */
  lemma KindAnchor(kind: string, name: string)
    requires kind != "file"
    ensures AnchorId(kind, name) == kind + "-" + AnchorId("file", name)
  {
  }

  /** Leading slashes are ignored. */
  lemma LeadingSlashIgnored(kind: string, s: string)
    ensures AnchorId(kind, "/" + s) == AnchorId(kind, s)
  {
    assert ("/" + s)[1..] == s;
  }

  /** An anchor is its own file anchor: cleaning an anchor again changes nothing,
      so a fragment taken from a copied link names the same element. */
  lemma AnchorIsFixedPoint(kind: string, name: string)
    requires forall i :: 0 <= i < |kind| ==> IsLowerAnchorChar(kind[i])
    ensures AnchorId("file", AnchorId(kind, name)) == AnchorId(kind, name)
  {
    var a := AnchorId(kind, name);
    CleanNameAt(name);
    assert forall i :: 0 <= i < |a| ==> IsLowerAnchorChar(a[i]);
    assert LeadingSlashes(a) == 0;
    CleanNameAt(a);
    assert CleanName(a) == a;
  }

  /** Two names that differ only in case share an anchor: the function does
      not avoid collisions. */
  lemma CaseCollision()
    ensures AnchorId("rule", "Foo") == AnchorId("rule", "foo")
  {
    CleanNameAt("Foo");
    CleanNameAt("foo");
    assert LeadingSlashes("Foo") == 0 && LeadingSlashes("foo") == 0;
  }

  /** A file whose path looks like a prefixed anchor shares that anchor. */
  lemma CrossKindCollision()
    ensures AnchorId("file", "rule-x") == AnchorId("rule", "x")
  {
    CleanNameAt("rule-x");
    CleanNameAt("x");
    assert LeadingSlashes("rule-x") == 0 && LeadingSlashes("x") == 0;
  }

  /** Inner slashes and dots are substituted as well: only leading slashes are dropped. */
  lemma FileAnchorExample()
    ensures AnchorId("file", "/p/D.bzl") == "p-d-bzl"
  {
    var name := "/p/D.bzl";
    CleanNameAt(name);
    assert LeadingSlashes(name[1..]) == 0;
    assert LeadingSlashes(name) == 1;
    var a := AnchorId("file", name);
    assert a[0] == 'p' && a[1] == '-' && a[2] == 'd' && a[3] == '-';
    assert a[4] == 'b' && a[5] == 'z' && a[6] == 'l';
  }
}
