/**
 * Go struct tags as the Event struct writes them: a single `key:"value"` pair
 * whose value is a name followed by comma-separated options. The structured form
 * (StructTag) is what the descriptor table works from; TagText renders it back to
 * the text a Go source file holds, and GoLookup is Go's lookup rule on that text.
 */
module StructTags {
  import opened Wrappers

  /** The options a tag can list after its name. */
  datatype TagOption = Required | OmitEmpty

  /**
   * A struct tag `key:"name,option,..."` as written, split at its commas. `quoted`
   * is false when the value is not enclosed in double quotes, which Go's
   * struct-tag syntax requires for the key to be found at all.
   */
  datatype StructTag = StructTag(key: string, name: string, options: seq<TagOption>, quoted: bool)

  /** The spelling of an option in the tag text. */
  function OptionText(o: TagOption): string {
    match o
    case Required => "required"
    case OmitEmpty => "omitempty"
  }

  /** The options as they follow the name: each preceded by a comma. */
  function OptionsText(options: seq<TagOption>): string {
    if options == [] then "" else "," + (OptionText(options[0]) + OptionsText(options[1..]))
  }

  /** The value of a tag: its name and its options. */
  function TagValue(tag: StructTag): string {
    tag.name + OptionsText(tag.options)
  }

  /** The text of a tag: `key:"value"`, or `key:value` when it is not quoted. */
  function TagText(tag: StructTag): string {
    tag.key + (":" + (if tag.quoted then "\"" + (TagValue(tag) + "\"") else TagValue(tag)))
  }

  /**
   * The name and options found under `key`, read from the structured tag:
   * nothing when the tag's value is not quoted, since Go's lookup then stops
   * before reading it. LookupFollowsGo shows that this agrees with GoLookup on
   * the tag's text.
   */
  function Lookup(tag: StructTag, key: string): Option<(string, seq<TagOption>)>
  {
    if tag.quoted && tag.key == key then Some((tag.name, tag.options)) else None
  }

  /** The characters Go accepts in a tag key: printable, and neither ':' nor '"'. */
  predicate IsKeyChar(c: char) {
    c > ' ' && c != ':' && c != '"' && c != '\U{7F}'
  }

  /** A key Go's lookup can find: non-empty, of key characters only. */
  predicate IsKey(key: string) {
    key != [] && forall k :: 0 <= k < |key| ==> IsKeyChar(key[k])
  }

  /**
   * A value that needs no escaping and that Go's unquoting accepts as it stands:
   * no double quote, no backslash and no newline.
   */
  predicate IsPlain(s: string) {
    forall k :: 0 <= k < |s| ==> s[k] != '"' && s[k] != '\\' && s[k] != '\n'
  }

  /** s without its leading spaces. */
  function SkipSpaces(s: string): (r: string)
    ensures |r| <= |s|
    ensures r == [] || r[0] != ' '
    ensures s != [] && s[0] != ' ' ==> r == s
  {
    if s != [] && s[0] == ' ' then SkipSpaces(s[1..]) else s
  }

  /** The length of the run of key characters that s starts with. */
  function KeyLength(s: string): (n: nat)
    ensures n <= |s|
    ensures forall k :: 0 <= k < n ==> IsKeyChar(s[k])
    ensures n < |s| ==> !IsKeyChar(s[n])
  {
    if s == [] || !IsKeyChar(s[0]) then 0 else 1 + KeyLength(s[1..])
  }

  /**
   * The position of the quote that closes the quoted string s opens, scanning
   * from i and skipping the character after each backslash; None when the
   * string is not closed.
   */
  function ClosingQuote(s: string, i: nat): (r: Option<nat>)
    ensures r.Some? ==> i <= r.value < |s| && s[r.value] == '"'
    decreases |s| - i
  {
    if i >= |s| then None
    else if s[i] == '\\' then ClosingQuote(s, i + 2)
    else if s[i] == '"' then Some(i)
    else ClosingQuote(s, i + 1)
  }

  /**
   * Go's struct-tag lookup on the text of a tag: pairs `key:"value"` separated by
   * spaces are read in turn; reading stops, finding nothing, at the first pair
   * whose key is empty or is not followed by `:"`, or whose quoted value is not
   * closed. The value of the first pair with the wanted key is returned without
   * its quotes, unless it holds a newline, which Go's unquoting rejects: then
   * nothing is found.
   */
  function GoLookup(text: string, key: string): (r: Option<string>)
    decreases |text|
  {
    var t := SkipSpaces(text);
    if t == [] then None
    else
      var i := KeyLength(t);
      if i == 0 || i + 1 >= |t| || t[i] != ':' || t[i + 1] != '"' then None
      else
        var quoted := t[i + 1..];
        match ClosingQuote(quoted, 1)
        case None => None
        case Some(j) =>
          if t[..i] == key then (if '\n' in quoted[1..j] then None else Some(quoted[1..j]))
          else GoLookup(quoted[j + 1..], key)
  }

  /**
   * Go's condition for reading the value of a pair that starts with key: the key
   * is followed by a colon and an opening double quote.
   */
  predicate OpensValue(text: string, key: string) {
    |text| > |key| + 1 && text[..|key|] == key && text[|key|] == ':' && text[|key| + 1] == '"'
  }

  /**
   * A pair whose key k is not followed by `:"` stops Go's lookup, so nothing is
   * found under any key.
   */
  lemma UnopenedValueNotFound(text: string, k: string, key: string)
    requires IsKey(k) && |text| > |k| && text[..|k|] == k && text[|k|] == ':'
    requires !OpensValue(text, k)
    ensures GoLookup(text, key) == None
  {
    var rest := text[|k|..];
    assert text == k + rest;
    assert text[0] == k[0];
    assert SkipSpaces(text) == text;
    KeyLengthOfKey(k, rest);
  }

  /** A run of key characters followed by a character that is not one ends there. */
  lemma {:induction false} KeyLengthOfKey(key: string, rest: string)
    requires forall k :: 0 <= k < |key| ==> IsKeyChar(key[k])
    requires rest != [] && !IsKeyChar(rest[0])
    ensures KeyLength(key + rest) == |key|
  {
    if key != [] {
      assert (key + rest)[1..] == key[1..] + rest;
      KeyLengthOfKey(key[1..], rest);
    }
  }

  /** In a quoted string with a plain body, the closing quote is the last character. */
  lemma {:induction false} ClosingQuoteOfPlain(s: string, i: nat)
    requires 0 < |s| && s[|s| - 1] == '"'
    requires i < |s|
    requires forall k :: i <= k < |s| - 1 ==> s[k] != '"' && s[k] != '\\'
    ensures ClosingQuote(s, i) == Some(|s| - 1)
    decreases |s| - i
  {
    if i < |s| - 1 {
      ClosingQuoteOfPlain(s, i + 1);
    }
  }

  /** The text of a tag starts with its key and a colon. */
  lemma TagTextKeyed(tag: StructTag)
    requires IsKey(tag.key)
    ensures |TagText(tag)| > |tag.key|
    ensures TagText(tag)[..|tag.key|] == tag.key && TagText(tag)[|tag.key|] == ':'
  {
    var t := TagText(tag);
    assert t == tag.key + (":" + (if tag.quoted then "\"" + (TagValue(tag) + "\"") else TagValue(tag)));
  }

  /** How Go's rule sees the text of a quoted tag: its key, a colon, and the quoted value. */
  lemma QuotedTextShape(tag: StructTag)
    requires IsKey(tag.key) && tag.quoted
    ensures SkipSpaces(TagText(tag)) == TagText(tag)
    ensures KeyLength(TagText(tag)) == |tag.key|
    ensures |TagText(tag)| > |tag.key| + 1
    ensures TagText(tag)[|tag.key| + 1..] == "\"" + TagValue(tag) + "\""
  {
    var t := TagText(tag);
    var i := |tag.key|;
    TagTextKeyed(tag);
    assert t == tag.key + t[i..];
    assert t[0] == tag.key[0];
    KeyLengthOfKey(tag.key, t[i..]);
  }

  /** Go's rule reads the value of a quoted tag with a plain value under the tag's own key only. */
  lemma QuotedValueRead(tag: StructTag, key: string)
    requires IsKey(tag.key) && IsPlain(TagValue(tag)) && tag.quoted
    ensures GoLookup(TagText(tag), key) == (if key == tag.key then Some(TagValue(tag)) else None)
  {
    var v := TagValue(tag);
    var t := TagText(tag);
    TagTextKeyed(tag);
    QuotedTextShape(tag);
    var quoted := t[|tag.key| + 1..];
    ClosingQuoteOfPlain(quoted, 1);
    assert quoted[1..|v| + 1] == v;
    assert quoted[|v| + 2..] == [];
  }

  /**
   * A quoted tag whose value holds a newline, and no quote or backslash, yields
   * nothing under any key: Go's unquoting rejects the value under the tag's own
   * key.
   */
  lemma QuotedNewlineNotFound(tag: StructTag, key: string)
    requires IsKey(tag.key) && tag.quoted
    requires forall k :: 0 <= k < |TagValue(tag)| ==> TagValue(tag)[k] != '"' && TagValue(tag)[k] != '\\'
    requires '\n' in TagValue(tag)
    ensures GoLookup(TagText(tag), key) == None
  {
    var v := TagValue(tag);
    var t := TagText(tag);
    TagTextKeyed(tag);
    QuotedTextShape(tag);
    var quoted := t[|tag.key| + 1..];
    ClosingQuoteOfPlain(quoted, 1);
    assert quoted[1..|v| + 1] == v;
    assert quoted[|v| + 2..] == [];
  }

  /**
   * Reading a tag's text with Go's rule finds exactly what Lookup reads from the
   * structured tag: the value (name and options) when the tag is quoted and has
   * the wanted key, and nothing otherwise.
   */
  lemma LookupFollowsGo(tag: StructTag, key: string)
    requires IsKey(tag.key) && IsPlain(TagValue(tag))
    ensures GoLookup(TagText(tag), key) ==
      (if Lookup(tag, key).Some? then Some(TagValue(tag)) else None)
  {
    if tag.quoted {
      QuotedValueRead(tag, key);
    } else {
      var t := TagText(tag);
      var v := TagValue(tag);
      TagTextKeyed(tag);
      assert t == tag.key + (":" + v);
      if |t| > |tag.key| + 1 {
        assert t[|tag.key| + 1] == v[0];
      }
      UnopenedValueNotFound(t, tag.key, key);
    }
  }
}
