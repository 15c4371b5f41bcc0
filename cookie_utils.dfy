/**
 * The session-cookie builder: a raw `name=value; name=value` string and a
 * target domain, both read from the environment, become the ordered list of
 * `{name, value, domain, path}` records the browser context is given.
 */
module CookieUtils {
  import opened Wrappers
  import opened Text

  /** One browser cookie record. */
  datatype Cookie = Cookie(name: string, value: string, domain: string, path: string)

  /** The ValueError raised when the cookie string or the domain is not set. */
  datatype ConfigError = SessionConfigMissing

  /** Every record is scoped to the whole site. */
  const RootPath: string := "/"

  /** `if not x` on an environment read: unset (None) and "" are both missing. */
  predicate Provided(x: Option<string>) {
    x.Some? && x.value != ""
  }

  /** The record one `;`-separated segment yields: none when the stripped
      segment holds no `=`; otherwise the stripped segment cut at its first
      `=`. Only the whole segment is stripped, never the name or the value. */
  function CookieOf(segment: string, domain: string): Option<Cookie> {
    var pair := Strip(segment);
    match FindChar(pair, '=')
    case None => None
    case Some(i) => Some(Cookie(pair[..i], pair[i + 1..], domain, RootPath))
  }

  /** A segment yields a record exactly when its stripped form holds an `=`;
      the record's name, `=` and value then spell out that stripped form, the
      name holds no `=` (the value may), and the record carries the domain
      and the path "/". */
  lemma CookieOfSpec(segment: string, domain: string)
    ensures var c := CookieOf(segment, domain);
      (c.Some? <==> '=' in Strip(segment)) &&
      (c.Some? ==>
        c.value.name + "=" + c.value.value == Strip(segment) &&
        '=' !in c.value.name &&
        c.value.domain == domain && c.value.path == RootPath)
  {
    var pair := Strip(segment);
    match FindChar(pair, '=')
    case None =>
    case Some(i) =>
      assert pair == pair[..i] + "=" + pair[i + 1..];
  }

  /** The records of a list of segments, in segment order. */
  function CookiesOf(segments: seq<string>, domain: string): seq<Cookie> {
    if segments == [] then []
    else
      var earlier := CookiesOf(segments[..|segments| - 1], domain);
      match CookieOf(segments[|segments| - 1], domain)
      case None => earlier
      case Some(c) => earlier + [c]
  }

  /** The stripped segments that hold an `=`, in order: the segments that
      yield a record. */
  function KeptSegments(segments: seq<string>): seq<string> {
    if segments == [] then []
    else
      var earlier := KeptSegments(segments[..|segments| - 1]);
      var pair := Strip(segments[|segments| - 1]);
      if '=' in pair then earlier + [pair] else earlier
  }

  /** `get_formatted_cookies`, with the two environment reads as inputs. */
  method GetFormattedCookies(cookieString: Option<string>, domain: Option<string>)
    returns (r: Result<seq<Cookie>, ConfigError>)
    ensures r.Failure? <==> !Provided(cookieString) || !Provided(domain)
    ensures r.Success? ==> r.value == CookiesOf(Split(cookieString.value, ';'), domain.value)
  {
    if !Provided(cookieString) || !Provided(domain) {
      return Failure(SessionConfigMissing);
    }
    var segments := Split(cookieString.value, ';');
    var cookies: seq<Cookie> := [];
    for i := 0 to |segments|
      invariant cookies == CookiesOf(segments[..i], domain.value)
    {
      var pair := Strip(segments[i]);
      match FindChar(pair, '=') {
        case None =>
        case Some(k) =>
          cookies := cookies + [Cookie(pair[..k], pair[k + 1..], domain.value, RootPath)];
      }
      assert segments[..i + 1][..i] == segments[..i];
    }
    assert segments[..|segments|] == segments;
    return Success(cookies);
  }

  /** One record per kept segment, in order: each record's name, `=` and
      value spell out exactly that stripped segment, the name holds no `=`
      (the value may), and every record carries the domain and the path "/". */
  lemma {:induction false} CookiesMatchKeptSegments(segments: seq<string>, domain: string)
    ensures var cs, kept := CookiesOf(segments, domain), KeptSegments(segments);
      |cs| == |kept| &&
      forall k :: 0 <= k < |cs| ==>
        cs[k].name + "=" + cs[k].value == kept[k] && '=' !in cs[k].name &&
        cs[k].domain == domain && cs[k].path == RootPath
  {
    if segments != [] {
      CookiesMatchKeptSegments(segments[..|segments| - 1], domain);
      CookieOfSpec(segments[|segments| - 1], domain);
    }
  }

  /** Segments are processed independently and in order: the records of
      a concatenation are the records of each part, one after the other. */
  lemma {:induction false} CookiesOfAppend(a: seq<string>, b: seq<string>, domain: string)
    ensures CookiesOf(a + b, domain) == CookiesOf(a, domain) + CookiesOf(b, domain)
    decreases |b|
  {
    if b == [] {
      assert a + b == a;
    } else {
      var b' := b[..|b| - 1];
      assert (a + b)[..|a + b| - 1] == a + b';
      assert (a + b)[|a + b| - 1] == b[|b| - 1];
      CookiesOfAppend(a, b', domain);
    }
  }

  /** A segment without `=` (after stripping) is dropped and leaves the
      records of the other segments exactly as they were. */
  lemma DroppedSegment(a: seq<string>, bad: string, b: seq<string>, domain: string)
    requires '=' !in Strip(bad)
    ensures CookiesOf(a + [bad] + b, domain) == CookiesOf(a + b, domain)
  {
    CookiesOfAppend(a + [bad], b, domain);
    CookiesOfAppend(a, [bad], domain);
    assert CookiesOf([bad], domain) == [] by {
      assert [bad][..0] == [];
    }
    CookiesOfAppend(a, b, domain);
  }

  /** Spaces around `=` survive: `" a = 1 "` gives the name "a " and the
      value " 1". */
  lemma InnerSpacesKept(domain: string)
    ensures CookieOf(" a = 1 ", domain) == Some(Cookie("a ", " 1", domain, RootPath))
  {
    var pair := "a = 1";
    assert Strip(" a = 1 ") == pair by {
      assert AllSpace(" ");
      assert !IsSpace(pair[0]) && !IsSpace(pair[|pair| - 1]);
      StripUnique(" ", pair, " ");
      assert " " + pair + " " == " a = 1 ";
    }
    assert FindChar(pair, '=') == Some(2) by {
      assert pair[0] != '=' && pair[1] != '=' && pair[2] == '=';
      assert pair[1..][1..] == pair[2..];
    }
    assert pair[..2] == "a " && pair[3..] == " 1";
  }

  /** A `name=value` pair with any surrounding whitespace is read back as
      that name and value, provided the name holds no `=` and the pair
      neither starts nor ends with whitespace. */
  lemma CookieOfPair(lead: string, name: string, value: string, trail: string, domain: string)
    requires AllSpace(lead) && AllSpace(trail)
    requires '=' !in name
    requires name != [] ==> !IsSpace(name[0])
    requires value != [] ==> !IsSpace(value[|value| - 1])
    ensures CookieOf(lead + (name + "=" + value) + trail, domain) == Some(Cookie(name, value, domain, RootPath))
  {
    var pair := name + "=" + value;
    PairEnds(name, value);
    StripUnique(lead, pair, trail);
    assert pair[..|name|] == name && pair[|name| + 1..] == value;
    FindCharAt(pair, '=', |name|);
    CookieOfStripped(lead + pair + trail, domain, pair, |name|);
  }

  lemma PairEnds(name: string, value: string)
    requires name != [] ==> !IsSpace(name[0])
    requires value != [] ==> !IsSpace(value[|value| - 1])
    ensures var pair := name + "=" + value; !IsSpace(pair[0]) && !IsSpace(pair[|pair| - 1])
  {
    var pair := name + "=" + value;
    if name == [] { assert pair[0] == '='; } else { assert pair[0] == name[0]; }
    if value == [] { assert pair[|pair| - 1] == '='; } else { assert pair[|pair| - 1] == value[|value| - 1]; }
  }

  lemma CookieOfStripped(segment: string, domain: string, pair: string, i: nat)
    requires Strip(segment) == pair && FindChar(pair, '=') == Some(i)
    ensures CookieOf(segment, domain) == Some(Cookie(pair[..i], pair[i + 1..], domain, RootPath))
  {
  }

  /** The text a record is written as in a cookie string. */
  function PairText(c: Cookie): string {
    c.name + "=" + c.value
  }

  /** Records that survive being written out and parsed again: scoped to
      `domain` and "/", no `;` anywhere, no `=` in the name, and no
      whitespace at either end of the pair. */
  predicate Writable(c: Cookie, domain: string) {
    c.domain == domain && c.path == RootPath &&
    ';' !in c.name && ';' !in c.value && '=' !in c.name &&
    (c.name != [] ==> !IsSpace(c.name[0])) &&
    (c.value != [] ==> !IsSpace(c.value[|c.value| - 1]))
  }

  /** The cookie string that lists the records, separated by `;`. */
  function CookieString(cs: seq<Cookie>): string {
    Join(PairTexts(cs), ";")
  }

  function PairTexts(cs: seq<Cookie>): seq<string> {
    seq(|cs|, i requires 0 <= i < |cs| => PairText(cs[i]))
  }

  /** Parsing a cookie string written from records gives the records back. */
  lemma CookieStringRoundTrip(cs: seq<Cookie>, domain: string)
    requires forall i :: 0 <= i < |cs| ==> Writable(cs[i], domain)
    ensures CookiesOf(Split(CookieString(cs), ';'), domain) == cs
  {
    if cs == [] {
      assert Split("", ';') == [""];
      assert [""][..0] == [];
      assert CookieOf("", domain).None? by {
        assert Strip("") == "";
      }
    } else {
      var texts := PairTexts(cs);
      forall i | 0 <= i < |texts| ensures ';' !in texts[i] {
        assert texts[i] == cs[i].name + "=" + cs[i].value;
      }
      SplitJoin(texts, ';');
      CookiesOfPairTexts(cs, domain);
    }
  }

  lemma {:induction false} CookiesOfPairTexts(cs: seq<Cookie>, domain: string)
    requires forall i :: 0 <= i < |cs| ==> Writable(cs[i], domain)
    ensures CookiesOf(PairTexts(cs), domain) == cs
  {
    if cs != [] {
      var n := |cs| - 1;
      var init, c := cs[..n], cs[n];
      assert CookiesOf(PairTexts(init) + [PairText(c)], domain) == init + [c] by {
        CookiesOfPairTexts(init, domain);
        CookiesOfAppend(PairTexts(init), [PairText(c)], domain);
        assert CookiesOf([PairText(c)], domain) == [c] by {
          CookieOfPairText(c, domain);
          assert [PairText(c)][..0] == [];
        }
      }
      assert cs == init + [c];
      PairTextsSnoc(init, c);
    }
  }

  lemma PairTextsSnoc(init: seq<Cookie>, c: Cookie)
    ensures PairTexts(init + [c]) == PairTexts(init) + [PairText(c)]
  {
  }

  lemma CookieOfPairText(c: Cookie, domain: string)
    requires Writable(c, domain)
    ensures CookieOf(PairText(c), domain) == Some(c)
  {
    CookieOfPair("", c.name, c.value, "", domain);
    assert "" + (c.name + "=" + c.value) + "" == PairText(c);
  }

  lemma CookiesOfOne(segment: string, domain: string)
    ensures CookiesOf([segment], domain)
      == if CookieOf(segment, domain).Some? then [CookieOf(segment, domain).value] else []
  {
    assert [segment][..0] == [];
  }

  /** The header `"a=1; b=2; bad; c=3"` yields the three cookies a, b and c
      in order; the segment without `=` is skipped. */
  lemma MixedHeader(cookieString: string, domain: string)
    requires cookieString == "a=1; b=2; bad; c=3"
    ensures CookiesOf(Split(cookieString, ';'), domain)
      == [Cookie("a", "1", domain, RootPath), Cookie("b", "2", domain, RootPath), Cookie("c", "3", domain, RootPath)]
  {
    var segments := ["a=1", " b=2", " bad", " c=3"];
    assert Join(segments, ";") == cookieString by {
      assert segments[1..][1..][1..] == [" c=3"];
      assert segments[1..][1..] == [" bad", " c=3"];
      assert segments[1..] == [" b=2", " bad", " c=3"];
    }
    SplitJoin(segments, ';');
    MixedSegments("a=1", " b=2", " bad", " c=3", domain);
  }

  lemma MixedSegments(s1: string, s2: string, s3: string, s4: string, domain: string)
    requires s1 == "a=1" && s2 == " b=2" && s3 == " bad" && s4 == " c=3"
    ensures CookiesOf([s1, s2, s3, s4], domain)
      == [Cookie("a", "1", domain, RootPath), Cookie("b", "2", domain, RootPath), Cookie("c", "3", domain, RootPath)]
  {
    SegmentKept(s1, "", "a", "1", domain);
    SegmentKept(s2, " ", "b", "2", domain);
    SegmentDropped(s3, domain);
    SegmentKept(s4, " ", "c", "3", domain);
    CookiesOfFour(s1, s2, s3, s4, domain);
  }

  lemma CookiesOfFour(s1: string, s2: string, s3: string, s4: string, domain: string)
    ensures CookiesOf([s1, s2, s3, s4], domain)
      == CookiesOf([s1], domain) + CookiesOf([s2], domain) + CookiesOf([s3], domain) + CookiesOf([s4], domain)
  {
    assert [s1, s2, s3, s4] == [s1] + [s2] + [s3] + [s4];
    CookiesOfAppend([s1], [s2], domain);
    CookiesOfAppend([s1] + [s2], [s3], domain);
    CookiesOfAppend([s1] + [s2] + [s3], [s4], domain);
  }

  lemma SegmentKept(segment: string, lead: string, name: string, value: string, domain: string)
    requires AllSpace(lead) && '=' !in name && name != [] && !IsSpace(name[0])
    requires value != [] && !IsSpace(value[|value| - 1])
    requires segment == lead + (name + "=" + value)
    ensures CookiesOf([segment], domain) == [Cookie(name, value, domain, RootPath)]
  {
    CookieOfPair(lead, name, value, "", domain);
    assert lead + (name + "=" + value) + "" == segment;
    CookiesOfOne(segment, domain);
  }

  lemma SegmentDropped(segment: string, domain: string)
    requires segment == " bad"
    ensures CookiesOf([segment], domain) == []
  {
    assert AllSpace(" ") && AllSpace("");
    StripUnique(" ", "bad", "");
    assert " " + "bad" + "" == segment;
    CookiesOfOne(segment, domain);
  }
}
