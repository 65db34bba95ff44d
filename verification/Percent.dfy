/**
 Passwords inside URLs: `quote(password, safe="")` into the userinfo part, `urlsplit(url).password`
 and `unquote` back out (sections 2.1 and 3.2.1 of RFC 3986). A password is its UTF-8 bytes.
 Also the Cypher string literal a password is sent to Neo4j in.
 */
module Percent {
  import opened Wrappers
  import opened Text

  type Byte = b: int | 0 <= b < 256

  // ---------- quote and unquote ----------

  predicate IsAlnum(c: char) {
    'a' <= c <= 'z' || 'A' <= c <= 'Z' || '0' <= c <= '9'
  }

  /** The characters `quote` leaves alone with no safe ones given. */
  predicate Unreserved(c: char) {
    IsAlnum(c) || c == '_' || c == '.' || c == '-' || c == '~'
  }

  function HexDigit(d: int): (c: char)
    requires 0 <= d < 16
    ensures IsAlnum(c) && HexValue(c) == Some(d)
  {
    if d < 10 then ('0' as int + d) as char else ('A' as int + d - 10) as char
  }

  /** Either case counts as a hex digit. */
  function HexValue(c: char): Option<int> {
    if '0' <= c <= '9' then Some(c as int - '0' as int)
    else if 'A' <= c <= 'F' then Some(c as int - 'A' as int + 10)
    else if 'a' <= c <= 'f' then Some(c as int - 'a' as int + 10)
    else None
  }

  function QuoteByte(b: Byte): string {
    if Unreserved(b as char) then [b as char] else ['%', HexDigit(b / 16), HexDigit(b % 16)]
  }

  function Quote(password: seq<Byte>): string {
    if password == [] then "" else QuoteByte(password[0]) + Quote(password[1..])
  }

  predicate IsEscape(s: string) {
    |s| >= 3 && s[0] == '%' && HexValue(s[1]).Some? && HexValue(s[2]).Some?
  }

  /** `unquote`; None on text outside ASCII. A "%" without two hex digits stands for itself. */
  function Unquote(s: string): Option<seq<Byte>> {
    if s == "" then Some([])
    else if IsEscape(s) then
      var high, low := HexValue(s[1]).value, HexValue(s[2]).value;
      Prefixed(16 * high + low, Unquote(s[3..]))
    else if s[0] as int >= 128 then None
    else Prefixed(s[0] as int, Unquote(s[1..]))
  }

  function Prefixed(b: int, rest: Option<seq<Byte>>): Option<seq<Byte>>
    requires 0 <= b < 256
  {
    if rest.None? then None else Some([b] + rest.value)
  }

  lemma UnquoteByteThen(b: Byte, rest: string)
    ensures Unquote(QuoteByte(b) + rest) == Prefixed(b, Unquote(rest))
  {
    var s := QuoteByte(b) + rest;
    if Unreserved(b as char) {
      assert s[0] == b as char && s[1..] == rest;
    } else {
      assert s[0] == '%' && s[1] == HexDigit(b / 16) && s[2] == HexDigit(b % 16) && s[3..] == rest;
    }
  }

  /** Unquoting undoes quoting, for every password. */
  lemma {:induction false} UnquoteQuote(password: seq<Byte>)
    ensures Unquote(Quote(password)) == Some(password)
  {
    if password != [] {
      UnquoteQuote(password[1..]);
      UnquoteByteThen(password[0], Quote(password[1..]));
      assert [password[0]] + password[1..] == password;
    }
  }

  lemma {:induction false} QuotedChars(password: seq<Byte>)
    ensures forall i :: 0 <= i < |Quote(password)| ==> Unreserved(Quote(password)[i]) || Quote(password)[i] == '%'
    ensures password != [] ==> Quote(password) != ""
  {
    if password != [] {
      QuotedChars(password[1..]);
      assert forall i :: 0 <= i < |QuoteByte(password[0])| ==>
        Unreserved(QuoteByte(password[0])[i]) || QuoteByte(password[0])[i] == '%';
    }
  }

  // ---------- urlsplit(url).password ----------

  predicate SchemeChar(c: char) {
    IsAlnum(c) || c == '+' || c == '-' || c == '.'
  }

  /** What follows the scheme, or the whole text when it has none. */
  function AfterScheme(url: string): string {
    var i := IndexOf(url, ':');
    if 0 < i < |url| && ('a' <= url[0] <= 'z' || 'A' <= url[0] <= 'Z')
      && (forall k :: 0 <= k < i ==> SchemeChar(url[k]))
    then url[i + 1..] else url
  }

  predicate EndsNetloc(c: char) {
    c == '/' || c == '?' || c == '#'
  }

  predicate NoneEndsNetloc(s: string) {
    forall i :: 0 <= i < |s| ==> !EndsNetloc(s[i])
  }

  function NetlocEnd(s: string): (n: nat)
    ensures n <= |s|
  {
    if s == "" || EndsNetloc(s[0]) then 0 else 1 + NetlocEnd(s[1..])
  }

  function Netloc(url: string): string {
    var rest := AfterScheme(url);
    if "//" <= rest then rest[2..][..NetlocEnd(rest[2..])] else ""
  }

  function LastIndexOf(s: string, c: char): (i: int)
    ensures -1 <= i < |s|
    ensures i >= 0 ==> s[i] == c
    ensures forall k :: i < k < |s| ==> s[k] != c
  {
    if s == "" then -1
    else if s[|s| - 1] == c then |s| - 1
    else LastIndexOf(s[..|s| - 1], c)
  }

  /** The password of the userinfo; None where urlsplit reports none. */
  function UrlPassword(url: string): Option<string> {
    var netloc := Netloc(url);
    var at := LastIndexOf(netloc, '@');
    if at < 0 || ':' !in netloc[..at] then None else Some(After(netloc[..at], ':'))
  }

  /** What the gateway's address looks like in a URL. */
  predicate PlainHost(host: string) {
    forall i :: 0 <= i < |host| ==> !EndsNetloc(host[i]) && host[i] != '@' && !IsBreak(host[i])
  }

  function GraphUrl(password: seq<Byte>, gateway: string): string {
    "bolt" + ":" + "//neo4j:" + Quote(password) + "@" + gateway + ":7687"
  }

  // ---------- any URL with a quoted password ----------

  lemma {:induction false} NetlocEndAt(authority: string, tail: string)
    requires NoneEndsNetloc(authority) && (tail != "" ==> tail[0] == '/')
    ensures NetlocEnd(authority + tail) == |authority|
  {
    var s := authority + tail;
    if authority != "" {
      assert s[0] == authority[0] && s[1..] == authority[1..] + tail;
      NetlocEndAt(authority[1..], tail);
    } else {
      assert s == tail;
    }
  }

  predicate LettersAndDigits(s: string) {
    forall i :: 0 <= i < |s| ==> 'a' <= s[i] <= 'z' || '0' <= s[i] <= '9'
  }

  lemma AfterLetters(scheme: string, tail: string)
    requires scheme != "" && 'a' <= scheme[0] <= 'z' && LettersAndDigits(scheme)
    ensures AfterScheme(scheme + [':'] + tail) == tail
  {
    var url := scheme + [':'] + tail;
    PartitionAt(scheme, ':', tail);
    assert forall k :: 0 <= k < |scheme| ==> url[k] == scheme[k] && SchemeChar(url[k]);
    assert url[|scheme| + 1..] == tail;
  }

  /**
   The password in a URL's userinfo: what stands between the user's colon and the host's "@" of the
   authority, which ends at the first "/", whatever the path holds.
   */
  lemma UserinfoIsRead(url: string, scheme: string, user: string, quoted: string, host: string, path: string)
    requires url == scheme + ":" + "//" + user + ":" + quoted + "@" + host + path
    requires scheme != "" && 'a' <= scheme[0] <= 'z' && LettersAndDigits(scheme) && LettersAndDigits(user)
    requires NoneEndsNetloc(quoted) && NoneEndsNetloc(host) && '@' !in host && (path != "" ==> path[0] == '/')
    ensures UrlPassword(url) == Some(quoted)
  {
    var authority := user + ":" + quoted + "@" + host;
    UrlParts(url, scheme, authority, path, user + ":" + quoted + "@" + host);
    AuthorityEndsNoNetloc(user, quoted, host);
    AuthorityIsRead(url, scheme, authority, path);
    AuthorityPassword(user, quoted, host);
  }

  lemma UrlParts(url: string, scheme: string, authority: string, path: string, same: string)
    requires authority == same && url == scheme + ":" + "//" + same + path
    ensures url == scheme + [':'] + ("//" + (authority + path))
  {
  }

  lemma AuthorityEndsNoNetloc(user: string, quoted: string, host: string)
    requires LettersAndDigits(user) && NoneEndsNetloc(quoted) && NoneEndsNetloc(host)
    ensures NoneEndsNetloc(user + ":" + quoted + "@" + host)
  {
  }

  lemma AuthorityIsRead(url: string, scheme: string, authority: string, path: string)
    requires url == scheme + [':'] + ("//" + (authority + path))
    requires scheme != "" && 'a' <= scheme[0] <= 'z' && LettersAndDigits(scheme)
    requires NoneEndsNetloc(authority) && (path != "" ==> path[0] == '/')
    ensures Netloc(url) == authority
  {
    var tail := "//" + (authority + path);
    AfterLetters(scheme, tail);
    NetlocEndAt(authority, path);
    assert tail[..2] == "//" && tail[2..] == authority + path && (authority + path)[..|authority|] == authority;
  }

  lemma AuthorityPassword(user: string, quoted: string, host: string)
    requires LettersAndDigits(user) && '@' !in host
    ensures var authority := user + ":" + quoted + "@" + host;
            var at := LastIndexOf(authority, '@');
            at >= 0 && ':' in authority[..at] && After(authority[..at], ':') == quoted
  {
    var authority := user + ":" + quoted + "@" + host;
    var at := |user + ":" + quoted|;
    assert authority[at] == '@';
    forall k | at < k < |authority| ensures authority[k] != '@' {
      assert authority[k] == host[k - at - 1];
    }
    assert LastIndexOf(authority, '@') == at;
    assert authority[..at] == user + [':'] + quoted;
    assert authority[..at][|user|] == ':';
    PartitionAt(user, ':', quoted);
  }

  /** The password read back from a saved GRAPH_URL is the one it was built with, for every password. */
  lemma GraphUrlRoundTrip(password: seq<Byte>, gateway: string)
    requires PlainHost(gateway)
    ensures UrlPassword(GraphUrl(password, gateway)) == Some(Quote(password))
    ensures Unquote(UrlPassword(GraphUrl(password, gateway)).value) == Some(password)
  {
    var scheme, user, host := "bolt", "neo4j", gateway + ":7687";
    GraphUrlParts(password, gateway, scheme, user, host);
    QuotedChars(password);
    UserinfoIsRead(GraphUrl(password, gateway), scheme, user, Quote(password), host, "");
    UnquoteQuote(password);
  }

  lemma GraphUrlParts(password: seq<Byte>, gateway: string, scheme: string, user: string, host: string)
    requires scheme == "bolt" && user == "neo4j" && host == gateway + ":7687" && PlainHost(gateway)
    ensures GraphUrl(password, gateway) == scheme + ":" + "//" + user + ":" + Quote(password) + "@" + host + ""
    ensures LettersAndDigits(scheme) && LettersAndDigits(user) && NoneEndsNetloc(host) && '@' !in host
  {
    var front := scheme + ":" + "//" + user + ":" + Quote(password) + "@";
    assert "bolt" + ":" + "//neo4j:" == scheme + ":" + "//" + user + ":";
    assert front + gateway + ":7687" == front + host + "";
    assert scheme[0] == 'b' && scheme[1] == 'o' && scheme[2] == 'l' && scheme[3] == 't';
  }

  /** `quote` leaves exactly letters, digits and four marks alone (section 2.3 of RFC 3986). */
  lemma UnreservedAre(c: char)
    ensures Unreserved(c) <==>
      || c in "abcdefghijklmnopqrstuvwxyz" || c in "ABCDEFGHIJKLMNOPQRSTUVWXYZ" || c in "0123456789" || c in "-._~"
  {
    LowerCaseLetters(c);
    UpperCaseLetters(c);
    Digits(c);
  }

  lemma LowerCaseLetters(c: char)
    ensures c in "abcdefghijklmnopqrstuvwxyz" <==> 'a' <= c <= 'z'
  {
    var letters := "abcdefghijklmnopqrstuvwxyz";
    assert forall i :: 0 <= i < 26 ==> letters[i] as int == 'a' as int + i;
    if 'a' <= c <= 'z' {
      assert letters[c as int - 'a' as int] == c;
    }
  }

  lemma UpperCaseLetters(c: char)
    ensures c in "ABCDEFGHIJKLMNOPQRSTUVWXYZ" <==> 'A' <= c <= 'Z'
  {
    var letters := "ABCDEFGHIJKLMNOPQRSTUVWXYZ";
    assert forall i :: 0 <= i < 26 ==> letters[i] as int == 'A' as int + i;
    if 'A' <= c <= 'Z' {
      assert letters[c as int - 'A' as int] == c;
    }
  }

  lemma Digits(c: char)
    ensures c in "0123456789" <==> '0' <= c <= '9'
  {
    var digits := "0123456789";
    assert forall i :: 0 <= i < 10 ==> digits[i] as int == '0' as int + i;
    if '0' <= c <= '9' {
      assert digits[c as int - '0' as int] == c;
    }
  }

  // ---------- the Cypher literal ----------

  /** `_cypher_string`. */
  function CypherString(value: string): string {
    "'" + Replace(Replace(value, "\\", "\\\\"), "'", "\\'") + "'"
  }

  /** How Cypher reads the body of a single-quoted literal: its value and what follows the closing quote. */
  function ReadLiteral(s: string): Option<(string, string)> {
    if s == "" then None
    else if s[0] == '\'' then Some(("", s[1..]))
    else if s[0] == '\\' then
      if |s| >= 2 && (s[1] == '\\' || s[1] == '\'') then Consed(s[1], ReadLiteral(s[2..])) else None
    else Consed(s[0], ReadLiteral(s[1..]))
  }

  function Consed(c: char, rest: Option<(string, string)>): Option<(string, string)> {
    if rest.None? then None else Some(([c] + rest.value.0, rest.value.1))
  }

  function EscapedChar(c: char): string {
    if c == '\\' then "\\\\" else if c == '\'' then "\\'" else [c]
  }

  function EscapedBody(value: string): string {
    Replace(Replace(value, "\\", "\\\\"), "'", "\\'")
  }

  lemma EscapedBodyHead(value: string)
    requires value != ""
    ensures EscapedBody(value) == EscapedChar(value[0]) + EscapedBody(value[1..])
  {
    var c, rest := value[0], Replace(value[1..], "\\", "\\\\");
    ReplaceCharHead(value, '\\', "\\\\");
    var first := if c == '\\' then "\\\\" else [c];
    ReplaceCharConcat(first, rest, '\'', "\\'");
    assert Replace("\\\\", "'", "\\'") == "\\\\" by {
      ReplaceCharHead("\\\\", '\'', "\\'");
      ReplaceCharHead("\\", '\'', "\\'");
    }
    ReplaceCharHead([c], '\'', "\\'");
  }

  lemma ReadEscapedChar(c: char, rest: string)
    ensures ReadLiteral(EscapedChar(c) + rest) == Consed(c, ReadLiteral(rest))
  {
    var s := EscapedChar(c) + rest;
    if |EscapedChar(c)| == 2 {
      assert s[0] == '\\' && s[1] == c && s[2..] == rest;
    } else {
      assert s[0] == c && s[1..] == rest;
    }
  }

  lemma {:induction false} ReadEscapedBody(value: string, rest: string)
    ensures ReadLiteral(EscapedBody(value) + "'" + rest) == Some((value, rest))
  {
    if value == "" {
      assert EscapedBody(value) + "'" + rest == "'" + rest;
      assert ("'" + rest)[1..] == rest;
    } else {
      EscapedBodyHead(value);
      ReadEscapedBody(value[1..], rest);
      assert EscapedBody(value) + "'" + rest == EscapedChar(value[0]) + (EscapedBody(value[1..]) + "'" + rest);
      ReadEscapedChar(value[0], EscapedBody(value[1..]) + "'" + rest);
      assert [value[0]] + value[1..] == value;
    }
  }

  /** No password can end its literal early: Cypher reads back exactly the value, then the rest of the script. */
  lemma CypherLiteralRoundTrip(value: string, rest: string)
    ensures CypherString(value)[0] == '\''
    ensures ReadLiteral((CypherString(value) + rest)[1..]) == Some((value, rest))
  {
    ReadEscapedBody(value, rest);
    assert (CypherString(value) + rest)[1..] == EscapedBody(value) + "'" + rest;
  }
}
