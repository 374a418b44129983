/** The front-end helper `getCookie(name)`: find `name` in the browser's cookie
    string. The cookie string is a parameter, and `decode` stands for
    `decodeURIComponent`. */
module Cookie {
  import opened Wrappers
  import Text

  /** An entry of the cookie string names `name` when, once trimmed, it begins
      with exactly `name` followed by '='. */
  predicate Matches(entry: string, name: string)
  {
    Text.StartsWith(Text.JsTrim(entry), name + "=")
  }

  /** The decoded text after `name=` in a matching entry. */
  function ValueOf(entry: string, name: string, decode: string -> string): string
    requires Matches(entry, name)
  {
    decode(Text.JsTrim(entry)[|name| + 1..])
  }

  /** The value of the first matching entry, if any. */
  function FirstMatch(entries: seq<string>, name: string, decode: string -> string): Option<string>
  {
    if entries == [] then None
    else if Matches(entries[0], name) then Some(ValueOf(entries[0], name, decode))
    else FirstMatch(entries[1..], name, decode)
  }

  /** What `getCookie(name)` answers for the cookie string `cookie`. */
  function CookieValue(cookie: string, name: string, decode: string -> string): Option<string>
  {
    if cookie == "" then None else FirstMatch(Text.Split(cookie, ';'), name, decode)
  }

  /** The answer is the value of the earliest matching entry; later matches are
      ignored; and there is no answer exactly when no entry matches. */
  lemma {:induction false} FirstMatchIsEarliest(entries: seq<string>, name: string, decode: string -> string, k: nat)
    requires k < |entries| && Matches(entries[k], name)
    requires forall j :: 0 <= j < k ==> !Matches(entries[j], name)
    ensures FirstMatch(entries, name, decode) == Some(ValueOf(entries[k], name, decode))
  {
    if k > 0 {
      FirstMatchIsEarliest(entries[1..], name, decode, k - 1);
    }
  }

  /** There is no answer exactly when no entry matches. */
  lemma {:induction false} NoMatchNoValue(entries: seq<string>, name: string, decode: string -> string)
    ensures FirstMatch(entries, name, decode).None? <==> forall j :: 0 <= j < |entries| ==> !Matches(entries[j], name)
  {
    if entries != [] {
      NoMatchNoValue(entries[1..], name, decode);
      assert forall j :: 1 <= j < |entries| ==> entries[j] == entries[1..][j - 1];
    }
  }

  /** An entry for a longer name that merely begins with `name` does not match:
      "csrftokenX=1" is not the cookie "csrftoken". */
  lemma LongerNameDoesNotMatch(name: string, c: char, rest: string)
    requires name != [] && !Text.JsIsSpace(name[0]) && c != '='
    ensures !Matches(name + [c] + rest, name)
  {
    var e := name + [c] + rest;
    assert e[0] == name[0];
    assert e[0..] == e;
    var t := Text.JsTrim(e);
    if |t| >= |name| + 1 {
      assert t[|name|] == e[|name|] == c;
    }
  }

  /** Blanks after the ';' separator do not keep an entry from matching: an
      entry made of blanks, `name=` and a value that does not end in a blank
      matches and gives that value. */
  lemma PaddedEntryMatches(pad: string, name: string, value: string, decode: string -> string)
    requires forall k :: 0 <= k < |pad| ==> Text.JsIsSpace(pad[k])
    requires name != [] && !Text.JsIsSpace(name[0])
    requires value != [] && !Text.JsIsSpace(value[|value| - 1])
    ensures Matches(pad + (name + "=" + value), name)
    ensures ValueOf(pad + (name + "=" + value), name, decode) == decode(value)
  {
    var e := name + "=" + value;
    Text.TrimPadded(pad, e, Text.JsIsSpace);
    assert e[0] == name[0] && e[|e| - 1] == value[|value| - 1];
    Text.TrimUnpadded(e, Text.JsIsSpace);
    assert e[..|name| + 1] == name + "=";
    assert e[|name| + 1..] == value;
  }

  /** The lookup skips an entry that does not match, takes the padded match
      that follows and ignores any later one. */
  lemma FirstOfSeveral(other: string, pad: string, name: string, value: string, later: string,
                       decode: string -> string)
    requires !Matches(other, name)
    requires forall k :: 0 <= k < |pad| ==> Text.JsIsSpace(pad[k])
    requires name != [] && !Text.JsIsSpace(name[0])
    requires value != [] && !Text.JsIsSpace(value[|value| - 1])
    ensures FirstMatch([other, pad + (name + "=" + value), later], name, decode) == Some(decode(value))
  {
    var e := pad + (name + "=" + value);
    PaddedEntryMatches(pad, name, value, decode);
    assert FirstMatch([e, later], name, decode) == Some(decode(value));
    assert [other, e, later][1..] == [e, later];
  }

  /** One step of the lookup from entry `i` on. */
  lemma FirstMatchAt(entries: seq<string>, i: nat, name: string, decode: string -> string)
    requires i < |entries|
    ensures FirstMatch(entries[i..], name, decode)
         == if Matches(entries[i], name) then Some(ValueOf(entries[i], name, decode))
            else FirstMatch(entries[i + 1..], name, decode)
  {
    assert entries[i..][0] == entries[i];
    assert entries[i..][1..] == entries[i + 1..];
  }

  /** The literal test and slice of `getCookie` are `Matches` and `ValueOf`. */
  lemma MatchTest(entry: string, name: string, decode: string -> string)
    ensures var cookie := Text.JsTrim(entry);
      Text.JsSubstring(cookie, 0, |name| + 1) == name + "=" <==> Matches(entry, name)
    ensures Matches(entry, name) ==>
      ValueOf(entry, name, decode) == decode(Text.JsSubstringFrom(Text.JsTrim(entry), |name| + 1))
  {
    var cookie := Text.JsTrim(entry);
    Text.SubstringPrefix(cookie, name + "=");
    if Matches(entry, name) {
      assert Text.JsSubstringFrom(cookie, |name| + 1) == cookie[|name| + 1..];
    }
  }

  /** `getCookie`: an empty cookie string gives null; otherwise the entries
      between ';' are trimmed in turn and the first that begins with `name=`
      gives the decoded rest of it. */
  method GetCookie(documentCookie: string, name: string, decode: string -> string) returns (cookieValue: Option<string>)
    ensures cookieValue == CookieValue(documentCookie, name, decode)
    ensures documentCookie == "" ==> cookieValue.None?
  {
    cookieValue := None;
    if documentCookie != "" {
      var cookies := Text.Split(documentCookie, ';');
      var i := 0;
      while i < |cookies|
        invariant 0 <= i <= |cookies|
        invariant FirstMatch(cookies[i..], name, decode) == FirstMatch(cookies, name, decode)
      {
        var cookie := Text.JsTrim(cookies[i]);
        MatchTest(cookies[i], name, decode);
        FirstMatchAt(cookies, i, name, decode);
        if Text.JsSubstring(cookie, 0, |name| + 1) == name + "=" {
          cookieValue := Some(decode(Text.JsSubstringFrom(cookie, |name| + 1)));
          break;
        }
        i := i + 1;
      }
    }
  }
}
