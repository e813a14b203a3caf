/**
 * The part of Python's `urllib.parse.urlparse(url)` that yields `.netloc`,
 * the network location the research tool uses as a page's domain.
 */
module UrlParse {
  import opened Wrappers
  import opened PyBuiltins

  /** Characters urlsplit strips from the front of a URL (C0 controls and space). */
  predicate IsControlOrSpace(c: char) { c as int <= 0x20 }

  /** Characters urlsplit deletes wherever they occur (tab, CR, LF). */
  predicate IsUnsafeUrlChar(c: char) { c == '\t' || c == '\r' || c == '\n' }

  predicate IsAsciiLetter(c: char) { 'a' <= c <= 'z' || 'A' <= c <= 'Z' }

  predicate IsSchemeChar(c: char) {
    IsAsciiLetter(c) || '0' <= c <= '9' || c == '+' || c == '-' || c == '.'
  }

  /** The characters that end a network location. */
  predicate IsNetlocDelimiter(c: char) { c == '/' || c == '?' || c == '#' }

  function LStripControls(s: string): string
    decreases |s|
  {
    if s != [] && IsControlOrSpace(s[0]) then LStripControls(s[1..]) else s
  }

  function RemoveUnsafe(s: string): string
    decreases |s|
  {
    if s == [] then []
    else (if IsUnsafeUrlChar(s[0]) then [] else [s[0]]) + RemoveUnsafe(s[1..])
  }

  /** Every character of `s[..i]` is a scheme character. */
  predicate SchemeCharsBefore(s: string, i: nat)
    requires i <= |s|
  {
    i == 0 || (IsSchemeChar(s[i - 1]) && SchemeCharsBefore(s, i - 1))
  }

  /**
   * What is left of a URL once a valid scheme and its colon are removed:
   * the scheme is everything before the first ':' provided it is non-empty,
   * starts with an ASCII letter and holds only scheme characters.
   */
  function AfterScheme(url: string): string {
    var i := IndexOf(url, ':');
    if 0 < i < |url| && IsAsciiLetter(url[0]) && SchemeCharsBefore(url, i) then url[i + 1..] else url
  }

  /** The index of the first delimiter at or after `from`, or `|s|`. */
  function NetlocEnd(s: string, from: nat): nat
    requires from <= |s|
    decreases |s| - from
  {
    if from == |s| || IsNetlocDelimiter(s[from]) then from else NetlocEnd(s, from + 1)
  }

  /**
   * `urlparse(url).netloc`; None where urlparse raises ValueError because the
   * network location has an unmatched '[' or ']'.
   */
  function Netloc(url: string): Option<string> {
    var rest := AfterScheme(RemoveUnsafe(LStripControls(url)));
    if |rest| >= 2 && rest[..2] == "//" then
      BracketsChecked(rest[2..NetlocEndOf(rest)])
    else Some("")
  }

  function NetlocEndOf(rest: string): (e: nat)
    requires |rest| >= 2
    ensures 2 <= e <= |rest|
  {
    NetlocEndSpec(rest, 2);
    NetlocEnd(rest, 2)
  }

  /** The bracket check urlsplit applies to a network location. */
  function BracketsChecked(n: string): Option<string> {
    if ('[' in n) != (']' in n) then None else Some(n)
  }

  lemma {:induction false} NetlocEndSpec(s: string, from: nat)
    requires from <= |s|
    ensures from <= NetlocEnd(s, from) <= |s|
    ensures forall k :: from <= k < NetlocEnd(s, from) ==> !IsNetlocDelimiter(s[k])
    ensures NetlocEnd(s, from) < |s| ==> IsNetlocDelimiter(s[NetlocEnd(s, from)])
    decreases |s| - from
  {
    if from < |s| && !IsNetlocDelimiter(s[from]) {
      NetlocEndSpec(s, from + 1);
    }
  }

  lemma {:induction false} RemoveUnsafeNoop(s: string)
    requires forall c :: c in s ==> !IsUnsafeUrlChar(c)
    ensures RemoveUnsafe(s) == s
    decreases |s|
  {
    if s != [] {
      assert s[0] in s;
      assert forall c :: c in s[1..] ==> c in s;
      RemoveUnsafeNoop(s[1..]);
    }
  }

  lemma {:induction false} SchemeCharsBeforeSpec(s: string, i: nat)
    requires i <= |s|
    ensures SchemeCharsBefore(s, i) <==> forall k :: 0 <= k < i ==> IsSchemeChar(s[k])
  {
    if i > 0 {
      SchemeCharsBeforeSpec(s, i - 1);
    }
  }

  /** A network location never reaches past the first '/', '?' or '#'. */
  lemma NetlocHasNoDelimiter(url: string)
    requires Netloc(url).Some?
    ensures forall c :: c in Netloc(url).value ==> !IsNetlocDelimiter(c)
  {
    var rest := AfterScheme(RemoveUnsafe(LStripControls(url)));
    if |rest| >= 2 && rest[..2] == "//" {
      var e := NetlocEnd(rest, 2);
      NetlocEndSpec(rest, 2);
      forall c | c in rest[2..e] ensures !IsNetlocDelimiter(c) {
        var i :| 0 <= i < e - 2 && rest[2..e][i] == c;
        assert rest[2 + i] == c;
      }
    }
  }

  /** A valid scheme and its colon are removed, and nothing else. */
  lemma AfterValidScheme(scheme: string, rest: string)
    requires scheme != [] && IsAsciiLetter(scheme[0])
    requires forall c :: c in scheme ==> IsSchemeChar(c)
    ensures AfterScheme(scheme + ":" + rest) == rest
  {
    var url := scheme + ":" + rest;
    IndexOfSpec(url, ':');
    var i := IndexOf(url, ':');
    assert url[|scheme|] == ':';
    assert forall k :: 0 <= k < |scheme| ==> url[k] == scheme[k] && scheme[k] in scheme;
    assert i == |scheme|;
    SchemeCharsBeforeSpec(url, i);
    assert url[i + 1..] == rest;
  }

  /** The network location after "//" runs up to the tail's leading delimiter. */
  lemma NetlocEndOfComposed(host: string, tail: string)
    requires forall c :: c in host ==> !IsNetlocDelimiter(c)
    requires tail == [] || IsNetlocDelimiter(tail[0])
    ensures NetlocEnd("//" + host + tail, 2) == 2 + |host|
  {
    var rest := "//" + host + tail;
    NetlocEndSpec(rest, 2);
    assert forall k :: 2 <= k < 2 + |host| ==> rest[k] == host[k - 2] && host[k - 2] in host;
    assert 2 + |host| < |rest| ==> rest[2 + |host|] == tail[0];
  }

  /**
   * Parsing a URL assembled as `scheme://host` followed by a path, query or
   * fragment gives back exactly `host`.
   */
  lemma NetlocOfComposed(scheme: string, host: string, tail: string)
    requires scheme != [] && IsAsciiLetter(scheme[0])
    requires forall c :: c in scheme ==> IsSchemeChar(c)
    requires forall c :: c in host ==> !IsNetlocDelimiter(c) && !IsUnsafeUrlChar(c)
    requires ('[' in host) == (']' in host)
    requires tail == [] || IsNetlocDelimiter(tail[0])
    requires forall c :: c in tail ==> !IsUnsafeUrlChar(c)
    ensures Netloc(scheme + "://" + host + tail) == Some(host)
  {
    var rest := "//" + host + tail;
    var url := scheme + ":" + rest;
    assert url == scheme + "://" + host + tail;
    assert url[0] == scheme[0];
    assert LStripControls(url) == url;
    forall c | c in url ensures !IsUnsafeUrlChar(c) {
      assert c in scheme + ":" || c in rest;
      assert c in rest ==> c in "//" || c in host || c in tail;
    }
    RemoveUnsafeNoop(url);
    AfterValidScheme(scheme, rest);
    assert rest[..2] == "//";
    NetlocEndOfComposed(host, tail);
    assert rest[2..2 + |host|] == host;
  }
}
