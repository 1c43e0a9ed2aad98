/** The Set-Cookie dissector: it accepts one `HTTP.SETCOOKIE` value, has the
    header parsed into cookies, and appends five STRING dissections per
    cookie (value, expires, path, domain, comment) to the record.

    The header grammar belongs to `java.net.HttpCookie.parse`, which is not
    part of this model: `Dissect` receives it as the function `parse`. The
    wall clock is the parameter `clockMillis`. */
module SetCookie {
  import opened Casts
  import opened Record
  import opened Decimal

  /** What `HttpCookie.parse` yields for one cookie; an attribute the header
      does not give is None (Java `null`). `maxAge` is whatever the parser
      chose, including its own value for an absent Max-Age. */
  datatype HttpCookie = HttpCookie(
    value: string,
    maxAge: int,
    path: Option<string>,
    domain: Option<string>,
    comment: Option<string>)

  /** The names of one cookie's dissections, in the order they are added. */
  const EmittedNames: seq<string> := ["value", "expires", "path", "domain", "comment"]

  /** The one input type this dissector accepts. */
  function InputType(): (r: string)
    ensures r == "HTTP.SETCOOKIE"
  {
    "HTTP.SETCOOKIE"
  }

  /** The type every dissection of this dissector carries, whatever the
      input and output names are. */
  function DissectionType(baseName: string, name: string): (r: string)
    ensures r == "STRING"
  {
    "STRING"
  }

  /** The outputs this dissector advertises, as written: the first four
      emitted names as STRING outputs, in emission order, without `comment`. */
  function PossibleOutput(): (r: seq<string>)
    ensures |r| == 4
    ensures forall i :: 0 <= i < |r| ==> r[i] == "STRING:" + EmittedNames[i]
    ensures forall i, j :: 0 <= i < j < |r| ==> r[i] != r[j]
    ensures "STRING:comment" !in r
  {
    ["STRING:value", "STRING:expires", "STRING:path", "STRING:domain"]
  }

  /** The advertised outputs once `comment` is included: one STRING output
      per emitted name, in emission order. */
  function CompletePossibleOutput(): (r: seq<string>)
    ensures |r| == |EmittedNames|
    ensures forall i :: 0 <= i < |r| ==> r[i] == "STRING:" + EmittedNames[i]
    ensures forall i, j :: 0 <= i < j < |r| ==> r[i] != r[j]
    ensures PossibleOutput() == r[..4]
  {
    PossibleOutput() + ["STRING:comment"]
  }

  /** Settings are accepted unconditionally and change nothing. */
  function InitializeFromSettingsParameter(settings: string): (ok: bool)
    ensures ok
  {
    true
  }

  /** The cast negotiation: every (input, output) pair, advertised or not,
      may only be read as a string. */
  function PrepareForDissect(inputName: string, outputName: string): (casts: set<Cast>)
    ensures casts == StringOnly
    ensures STRING in casts && LONG !in casts && DOUBLE !in casts
  {
    StringOnly
  }

  /** Whole seconds of a millisecond clock reading, as
      `System.currentTimeMillis()/1000` computes them: Java's `long` division
      truncates toward zero. */
  function NowSeconds(clockMillis: int): (s: int)
    ensures clockMillis >= 0 ==> 0 <= s * 1000 <= clockMillis < s * 1000 + 1000
    ensures clockMillis < 0 ==> s * 1000 - 1000 < clockMillis <= s * 1000 <= 0
  {
    if clockMillis >= 0 then clockMillis / 1000 else -((-clockMillis) / 1000)
  }

  /** The five dissections one cookie produces, in the order `dissect`
      adds them. */
  function CookieGroup(inputName: string, nowSeconds: int, c: HttpCookie): seq<Dissection>
  {
    [Dissection(inputName, DissectionType(inputName, "value"), "value", Some(c.value)),
     Dissection(inputName, DissectionType(inputName, "expires"), "expires", Some(DecimalString(nowSeconds + c.maxAge))),
     Dissection(inputName, DissectionType(inputName, "path"), "path", c.path),
     Dissection(inputName, DissectionType(inputName, "domain"), "domain", c.domain),
     Dissection(inputName, DissectionType(inputName, "comment"), "comment", c.comment)]
  }

  /** One cookie's group: five STRING dissections of the same input, named
      in emission order; `expires` reads back as the clock reading plus the
      Max-Age, the other four copy the cookie without defaulting. */
  lemma CookieGroupFacts(inputName: string, nowSeconds: int, c: HttpCookie)
    ensures var g := CookieGroup(inputName, nowSeconds, c);
      |g| == |EmittedNames| &&
      (forall k :: 0 <= k < |g| ==> g[k].inputName == inputName && g[k].typ == "STRING" && g[k].name == EmittedNames[k]) &&
      g[0].value == Some(c.value) &&
      g[1].value == Some(DecimalString(nowSeconds + c.maxAge)) &&
      ParseDecimal(g[1].value.value) == Some(nowSeconds + c.maxAge) &&
      g[2].value == c.path && g[3].value == c.domain && g[4].value == c.comment
  {
    DecimalRoundTrip(nowSeconds + c.maxAge);
  }

  /** Everything the loop of `dissect` adds for the parsed cookies `cs`, with
      one clock reading shared by all of them: five dissections per cookie. */
  function Emitted(inputName: string, nowSeconds: int, cs: seq<HttpCookie>): (r: seq<Dissection>)
    ensures |r| == 5 * |cs|
  {
    if |cs| == 0 then []
    else Emitted(inputName, nowSeconds, cs[..|cs| - 1]) + CookieGroup(inputName, nowSeconds, cs[|cs| - 1])
  }

  /** Every dissection of one call carries the call's input name and the
      type STRING. */
  lemma {:induction false} EmittedUniform(inputName: string, nowSeconds: int, cs: seq<HttpCookie>)
    ensures forall d :: d in Emitted(inputName, nowSeconds, cs) ==> d.inputName == inputName && d.typ == "STRING"
  {
    if |cs| > 0 {
      EmittedUniform(inputName, nowSeconds, cs[..|cs| - 1]);
      CookieGroupFacts(inputName, nowSeconds, cs[|cs| - 1]);
    }
  }

  /** What one `dissect` call adds to the record, given the field's value:
      nothing for a null or empty value, otherwise the groups of the parsed
      cookies. */
  function Added(fieldValue: Option<string>, inputName: string, nowSeconds: int,
                 parse: string -> seq<HttpCookie>): (r: seq<Dissection>)
    ensures fieldValue == None || fieldValue == Some("") ==> r == []
    ensures fieldValue.Some? && fieldValue.value != "" ==> |r| == 5 * |parse(fieldValue.value)|
  {
    match fieldValue
    case None => []
    case Some(v) => if v == "" then [] else Emitted(inputName, nowSeconds, parse(v))
  }

  /** The dissection step: reads the HTTP.SETCOOKIE field `inputName` from
      the record and appends the cookies' dissections to it, in order. */
  method Dissect(parsable: Parsable, inputName: string, clockMillis: int,
                 parse: string -> seq<HttpCookie>)
    modifies parsable
    ensures parsable.dissections ==
      old(parsable.dissections) +
      Added(parsable.FieldValue(InputType(), inputName), inputName, NowSeconds(clockMillis), parse)
  {
    var fieldValue := parsable.FieldValue(InputType(), inputName);
    if fieldValue == None || fieldValue.value == "" {
      assert Added(fieldValue, inputName, NowSeconds(clockMillis), parse) == [];
      return;
    }
    var nowSeconds := NowSeconds(clockMillis);
    var cookies := parse(fieldValue.value);
    assert Added(fieldValue, inputName, nowSeconds, parse) == Emitted(inputName, nowSeconds, cookies);
    ghost var before := parsable.dissections;
    for i := 0 to |cookies|
      invariant parsable.dissections == before + Emitted(inputName, nowSeconds, cookies[..i])
    {
      var cookie := cookies[i];
      ghost var done := parsable.dissections;
      ghost var prev := Emitted(inputName, nowSeconds, cookies[..i]);
      ghost var g := CookieGroup(inputName, nowSeconds, cookie);
      EmittedStep(inputName, nowSeconds, cookies, i);
      AppendFive(before, prev, g);
      parsable.AddDissection(inputName, DissectionType(inputName, "value"), "value", Some(cookie.value));
      parsable.AddDissection(inputName, DissectionType(inputName, "expires"), "expires",
                             Some(DecimalString(nowSeconds + cookie.maxAge)));
      parsable.AddDissection(inputName, DissectionType(inputName, "path"), "path", cookie.path);
      parsable.AddDissection(inputName, DissectionType(inputName, "domain"), "domain", cookie.domain);
      parsable.AddDissection(inputName, DissectionType(inputName, "comment"), "comment", cookie.comment);
      assert parsable.dissections == done + [g[0]] + [g[1]] + [g[2]] + [g[3]] + [g[4]];
    }
    assert cookies[..|cookies|] == cookies;
  }

  /** Appending a group of five one dissection at a time appends the group. */
  lemma AppendFive(before: seq<Dissection>, prev: seq<Dissection>, g: seq<Dissection>)
    requires |g| == 5
    ensures before + prev + [g[0]] + [g[1]] + [g[2]] + [g[3]] + [g[4]] == before + (prev + g)
  {
    assert g == [g[0], g[1], g[2], g[3], g[4]];
  }

  /** Dissecting one more cookie appends exactly that cookie's group. */
  lemma EmittedStep(inputName: string, nowSeconds: int, cs: seq<HttpCookie>, i: nat)
    requires i < |cs|
    ensures Emitted(inputName, nowSeconds, cs[..i + 1]) ==
            Emitted(inputName, nowSeconds, cs[..i]) + CookieGroup(inputName, nowSeconds, cs[i])
  {
    assert cs[..i + 1][..i] == cs[..i];
  }

  /** The i-th group of five dissections is exactly the i-th parsed cookie's
      group: cookies appear in parse order, nothing is interleaved. */
  lemma {:induction false} EmittedGroup(inputName: string, nowSeconds: int, cs: seq<HttpCookie>, i: nat)
    requires i < |cs|
    ensures 5 * i + 5 <= |Emitted(inputName, nowSeconds, cs)|
    ensures Emitted(inputName, nowSeconds, cs)[5 * i .. 5 * i + 5] == CookieGroup(inputName, nowSeconds, cs[i])
  {
    var last := |cs| - 1;
    var prefix := Emitted(inputName, nowSeconds, cs[..last]);
    var e := Emitted(inputName, nowSeconds, cs);
    assert e == prefix + CookieGroup(inputName, nowSeconds, cs[last]);
    if i < last {
      EmittedGroup(inputName, nowSeconds, cs[..last], i);
      assert cs[..last][i] == cs[i];
      assert 5 * i + 5 <= |prefix|;
      assert e[5 * i .. 5 * i + 5] == prefix[5 * i .. 5 * i + 5];
    } else {
      assert 5 * i == |prefix|;
      assert e[5 * i .. 5 * i + 5] == e[|prefix|..];
    }
  }

  /** The `TYPE:name` under which a dissection would be advertised. */
  function OutputKey(d: Dissection): string
  {
    d.typ + ":" + d.name
  }

  /** The expiry time an `expires` dissection states, if its text is decimal. */
  function ExpiresOf(d: Dissection): Option<int>
  {
    if d.value.Some? then ParseDecimal(d.value.value) else None
  }

  /** Each cookie's `expires` is the shared clock reading plus its Max-Age,
      and its other four dissections copy the parsed cookie unchanged. */
  lemma CookieDissections(inputName: string, nowSeconds: int, cs: seq<HttpCookie>, i: nat)
    requires i < |cs|
    ensures var e := Emitted(inputName, nowSeconds, cs);
      5 * i + 5 <= |e| &&
      e[5 * i] == Dissection(inputName, "STRING", "value", Some(cs[i].value)) &&
      e[5 * i + 1] == Dissection(inputName, "STRING", "expires", Some(DecimalString(nowSeconds + cs[i].maxAge))) &&
      ExpiresOf(e[5 * i + 1]) == Some(nowSeconds + cs[i].maxAge) &&
      e[5 * i + 2] == Dissection(inputName, "STRING", "path", cs[i].path) &&
      e[5 * i + 3] == Dissection(inputName, "STRING", "domain", cs[i].domain) &&
      e[5 * i + 4] == Dissection(inputName, "STRING", "comment", cs[i].comment)
  {
    EmittedGroup(inputName, nowSeconds, cs, i);
    CookieGroupFacts(inputName, nowSeconds, cs[i]);
    var e := Emitted(inputName, nowSeconds, cs);
    var g := CookieGroup(inputName, nowSeconds, cs[i]);
    assert e[5 * i] == g[0] && e[5 * i + 1] == g[1] && e[5 * i + 2] == g[2];
    assert e[5 * i + 3] == g[3] && e[5 * i + 4] == g[4];
  }

  /** Dissecting the same cookies at two clock readings gives the same
      dissections except `expires`, which moves by exactly the difference of
      the readings. */
  lemma ClockShift(inputName: string, t1: int, t2: int, cs: seq<HttpCookie>, i: nat)
    requires i < |cs|
    ensures var e1, e2 := Emitted(inputName, t1, cs), Emitted(inputName, t2, cs);
      |e1| == |e2| &&
      e1[5 * i] == e2[5 * i] && e1[5 * i + 2] == e2[5 * i + 2] &&
      e1[5 * i + 3] == e2[5 * i + 3] && e1[5 * i + 4] == e2[5 * i + 4] &&
      ExpiresOf(e1[5 * i + 1]).Some? && ExpiresOf(e2[5 * i + 1]).Some? &&
      ExpiresOf(e2[5 * i + 1]).value - ExpiresOf(e1[5 * i + 1]).value == t2 - t1
  {
    CookieDissections(inputName, t1, cs, i);
    CookieDissections(inputName, t2, cs, i);
  }

  /** As written, a dissect call that finds at least one cookie adds a
      dissection (`comment`) whose `TYPE:name` is not among the advertised
      outputs. */
  lemma CommentNotAdvertised(inputName: string, nowSeconds: int, cs: seq<HttpCookie>)
    requires |cs| > 0
    ensures var e := Emitted(inputName, nowSeconds, cs);
      exists j :: 0 <= j < |e| && OutputKey(e[j]) !in PossibleOutput()
  {
    var e := Emitted(inputName, nowSeconds, cs);
    CookieDissections(inputName, nowSeconds, cs, 0);
    assert OutputKey(e[4]) == "STRING:comment";
  }

  /** With `comment` advertised, every dissection any call can add is
      announced ahead of time. */
  lemma {:induction false} EmittedAdvertised(inputName: string, nowSeconds: int, cs: seq<HttpCookie>)
    ensures forall j :: 0 <= j < |Emitted(inputName, nowSeconds, cs)| ==>
      OutputKey(Emitted(inputName, nowSeconds, cs)[j]) in CompletePossibleOutput()
  {
    if |cs| > 0 {
      var prefix := Emitted(inputName, nowSeconds, cs[..|cs| - 1]);
      var g := CookieGroup(inputName, nowSeconds, cs[|cs| - 1]);
      var e := Emitted(inputName, nowSeconds, cs);
      var out := CompletePossibleOutput();
      EmittedAdvertised(inputName, nowSeconds, cs[..|cs| - 1]);
      CookieGroupFacts(inputName, nowSeconds, cs[|cs| - 1]);
      assert e == prefix + g;
      forall j | 0 <= j < |e|
        ensures OutputKey(e[j]) in out
      {
        if j < |prefix| {
          assert e[j] == prefix[j];
        } else {
          var k := j - |prefix|;
          assert e[j] == g[k];
          assert out[k] == OutputKey(g[k]);
        }
      }
    }
  }

  /** Two cookies, the second with no Max-Age (the parser's -1), path
      "/x" and domain "example.com", dissected at second 1000. */
  lemma TwoCookieExample(inputName: string)
    ensures var cs := [HttpCookie("1", 60, None, None, None),
                       HttpCookie("2", -1, Some("/x"), Some("example.com"), None)];
      Added(Some("a=1; Max-Age=60, b=2; Path=/x; Domain=example.com"), inputName, 1000, _ => cs) ==
      [Dissection(inputName, "STRING", "value", Some("1")),
       Dissection(inputName, "STRING", "expires", Some("1060")),
       Dissection(inputName, "STRING", "path", None),
       Dissection(inputName, "STRING", "domain", None),
       Dissection(inputName, "STRING", "comment", None),
       Dissection(inputName, "STRING", "value", Some("2")),
       Dissection(inputName, "STRING", "expires", Some("999")),
       Dissection(inputName, "STRING", "path", Some("/x")),
       Dissection(inputName, "STRING", "domain", Some("example.com")),
       Dissection(inputName, "STRING", "comment", None)]
  {
    var cs := [HttpCookie("1", 60, None, None, None),
               HttpCookie("2", -1, Some("/x"), Some("example.com"), None)];
    assert cs[..1][..0] == [];
    assert cs[..2][..1] == cs[..1];
    assert cs[..2] == cs;
    assert Digits(1060) == "1060";
    assert Digits(999) == "999";
    assert DecimalString(1060) == "1060";
    assert DecimalString(999) == "999";
    var g0 := CookieGroup(inputName, 1000, cs[0]);
    var g1 := CookieGroup(inputName, 1000, cs[1]);
    assert Emitted(inputName, 1000, cs[..1]) == g0;
    assert Emitted(inputName, 1000, cs) == g0 + g1;
  }
}
