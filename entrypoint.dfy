/**
 * Choosing the document's entrypoint among the parsed parts: an explicit
 * `document.html` wins, then an explicit `document.txt`; otherwise the generic
 * `document` part is classified by a case-insensitive look for `<html` or
 * `<body`, and moved under the name it was classified as.
 */
module Entrypoint {
  import opened Strings
  import opened OrderedParts

  const HtmlName: string := "document.html"
  const TextName: string := "document.txt"
  const GenericName: string := "document"

  /** The HTML heuristic: the lower-cased bytes contain `<html` or `<body`. */
  predicate LooksLikeHtml(content: Bytes)
    ensures LooksLikeHtml(content) ==> |content| >= 5
  {
    Contains(AsciiLower(content), Ascii("<html")) || Contains(AsciiLower(content), Ascii("<body"))
  }

  /** The name the generic part is stored under. */
  function GenericTarget(content: Bytes): string {
    if LooksLikeHtml(content) then HtmlName else TextName
  }

  /** The entrypoint the parts call for; `None` when none of the three names is present. */
  function EntrypointName(parts: Parts): Option<string> {
    if HtmlName in parts.content then Some(HtmlName)
    else if TextName in parts.content then Some(TextName)
    else if GenericName in parts.content then Some(GenericTarget(parts.content[GenericName]))
    else None
  }

  /** The generic part is renamed exactly when neither explicit name is present. */
  predicate RenamesGeneric(parts: Parts) {
    HtmlName !in parts.content && TextName !in parts.content && GenericName in parts.content
  }

  /** The parts once the generic part, if it was the entrypoint, has moved to its new name. */
  function ResolvedParts(parts: Parts): (r: Parts)
    requires parts.Valid()
    ensures r.Valid()
  {
    if !RenamesGeneric(parts) then parts
    else
      var content := parts.content[GenericName];
      Set(Remove(parts, GenericName), GenericTarget(content), content)
  }

  /**
   * The entrypoint block of `store_document`: the dictionary is edited in
   * place, first storing the generic part's bytes under the new name, then
   * deleting the `document` key.
   */
  method ResolveEntrypoint(parts: Parts) returns (entrypoint: Option<string>, resolved: Parts)
    requires parts.Valid()
    ensures entrypoint == EntrypointName(parts)
    ensures resolved == ResolvedParts(parts)
  {
    resolved := parts;
    if HtmlName in resolved.content {
      entrypoint := Some(HtmlName);
    } else if TextName in resolved.content {
      entrypoint := Some(TextName);
    } else if GenericName in resolved.content {
      var content := resolved.content[GenericName];
      if Contains(AsciiLower(content), Ascii("<html")) || Contains(AsciiLower(content), Ascii("<body")) {
        entrypoint := Some(HtmlName);
        resolved := Set(resolved, HtmlName, content);
        resolved := Remove(resolved, GenericName);
      } else {
        entrypoint := Some(TextName);
        resolved := Set(resolved, TextName, content);
        resolved := Remove(resolved, GenericName);
      }
      SetThenRemove(parts, GenericTarget(content), content);
    } else {
      entrypoint := None;
    }
  }

  /** Storing under a new name and then deleting the generic name is the same as the other order. */
  lemma SetThenRemove(parts: Parts, name: string, content: Bytes)
    requires parts.Valid() && GenericName in parts.content && name !in parts.content
    ensures Remove(Set(parts, name, content), GenericName) == Set(Remove(parts, GenericName), name, content)
  {
    SetThenRemoveNames(parts, name, content);
    UpdateThenRemove(parts.content, name, content, GenericName);
  }

  lemma SetThenRemoveNames(parts: Parts, name: string, content: Bytes)
    requires parts.Valid() && GenericName in parts.content && name !in parts.content
    ensures Remove(Set(parts, name, content), GenericName).names == Set(Remove(parts, GenericName), name, content).names
  {
    var i := IndexOf(parts.names, GenericName);
    RemoveAfterSet(parts, name, content);
    SetAfterRemove(parts, name, content);
    DropThenAppend(parts.names, i, name);
  }

  /** Removing the generic part after adding `name` drops the generic part's old position. */
  lemma RemoveAfterSet(parts: Parts, name: string, content: Bytes)
    requires parts.Valid() && GenericName in parts.content && name !in parts.content
    ensures var i := IndexOf(parts.names, GenericName);
      Remove(Set(parts, name, content), GenericName).names == (parts.names + [name])[..i] + (parts.names + [name])[i + 1..]
  {
    IndexOfAppend(parts.names, GenericName, name);
  }

  /** Adding `name` after removing the generic part appends it. */
  lemma SetAfterRemove(parts: Parts, name: string, content: Bytes)
    requires parts.Valid() && GenericName in parts.content && name !in parts.content
    ensures var i := IndexOf(parts.names, GenericName);
      Set(Remove(parts, GenericName), name, content).names == (parts.names[..i] + parts.names[i + 1..]) + [name]
  {
  }

  /** Dropping position `i` commutes with appending past it. */
  lemma DropThenAppend(s: seq<string>, i: nat, x: string)
    requires i < |s|
    ensures (s + [x])[..i] + (s + [x])[i + 1..] == (s[..i] + s[i + 1..]) + [x]
  {
    assert (s + [x])[..i] == s[..i];
    assert (s + [x])[i + 1..] == s[i + 1..] + [x];
  }

  lemma UpdateThenRemove(m: map<string, Bytes>, k: string, v: Bytes, gone: string)
    requires k != gone
    ensures m[k := v] - {gone} == (m - {gone})[k := v]
  {
  }

  /**
   * The priority rule: `document.html` before `document.txt` before the
   * generic part, and no entrypoint only when none of the three is present.
   */
  lemma EntrypointPriority(parts: Parts)
    ensures HtmlName in parts.content ==> EntrypointName(parts) == Some(HtmlName)
    ensures HtmlName !in parts.content && TextName in parts.content ==> EntrypointName(parts) == Some(TextName)
    ensures RenamesGeneric(parts) ==>
      (EntrypointName(parts) == Some(HtmlName) <==> LooksLikeHtml(parts.content[GenericName]))
    ensures RenamesGeneric(parts) ==>
      (EntrypointName(parts) == Some(TextName) <==> !LooksLikeHtml(parts.content[GenericName]))
    ensures EntrypointName(parts).None? <==>
      HtmlName !in parts.content && TextName !in parts.content && GenericName !in parts.content
  {
  }

  /**
   * A successfully parsed request always has an entrypoint, since parsing
   * demands a part named exactly `document`: the "No document.html,
   * document.txt, or document part found" response cannot be produced.
   */
  lemma ParsedRequestHasEntrypoint(parts: Parts)
    requires GenericName in parts.content
    ensures EntrypointName(parts).Some?
  {
  }

  /** The entrypoint names a stored part. */
  lemma EntrypointIsStored(parts: Parts)
    requires parts.Valid()
    ensures EntrypointName(parts).Some? ==> EntrypointName(parts).value in ResolvedParts(parts).names
  {
  }

  /**
   * Renaming the generic part: its bytes move to the entrypoint name, which
   * goes to the end of the dictionary; the `document` key disappears; every
   * other part keeps its bytes and its relative order.
   */
  lemma GenericPartRenamed(parts: Parts)
    requires parts.Valid() && RenamesGeneric(parts)
    ensures var r, e := ResolvedParts(parts), EntrypointName(parts).value;
      && GenericName !in r.content
      && e in r.content && r.content[e] == parts.content[GenericName]
      && r.names == Remove(parts, GenericName).names + [e]
      && (forall n :: n != GenericName && n != e ==>
            (n in r.content <==> n in parts.content) && (n in r.content ==> r.content[n] == parts.content[n]))
  {
    var e := GenericTarget(parts.content[GenericName]);
    assert e != GenericName;
  }

  /** Without a rename, the parts are untouched: an explicit entrypoint leaves `document` in place. */
  lemma NoRenameKeepsParts(parts: Parts)
    requires parts.Valid() && !RenamesGeneric(parts)
    ensures ResolvedParts(parts) == parts
  {
  }

  /** The heuristic ignores case: lower-casing the content first changes nothing. */
  lemma LooksLikeHtmlIgnoresCase(content: Bytes)
    ensures LooksLikeHtml(AsciiLower(content)) == LooksLikeHtml(content)
  {
    AsciiLowerIdempotent(content);
  }

  /** The heuristic holds exactly when `<html` or `<body` occurs somewhere in the lowered bytes. */
  lemma LooksLikeHtmlIff(content: Bytes)
    ensures LooksLikeHtml(content) <==>
      exists i: nat :: OccursAt(AsciiLower(content), Ascii("<html"), i) || OccursAt(AsciiLower(content), Ascii("<body"), i)
  {
    ContainsIff(AsciiLower(content), Ascii("<html"));
    ContainsIff(AsciiLower(content), Ascii("<body"));
  }

  /** Upper-case markup is recognised. */
  lemma UpperCaseMarkupIsHtml()
    ensures LooksLikeHtml(Ascii("<BODY>Hi</BODY>"))
  {
    var lowered := AsciiLower(Ascii("<BODY>Hi</BODY>"));
    assert lowered[..5] == Ascii("<body");
  }

  /** Plain words are not. */
  lemma PlainWordsAreText()
    ensures !LooksLikeHtml(Ascii("hello"))
  {
    var lowered := AsciiLower(Ascii("hello"));
    assert lowered[..5][0] == 0x68 && Ascii("<html")[0] == 0x3C && Ascii("<body")[0] == 0x3C;
    assert !Contains(lowered[1..], Ascii("<html")) && !Contains(lowered[1..], Ascii("<body"));
  }
}
