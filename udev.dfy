/** The persistent network device naming rules writer
    (src/helpers/udev.js): one udev rule line per {name, mac} pair. */
module Udev {
  import opened Values

  /** The file the rules are written to. */
  const RulesPath := "/etc/udev/rules.d/70-persistent-net.rules"

  /** One rule: give the device with address `mac` the name `name`. */
  datatype Rule = Rule(name: string, mac: Value)

  /** A file write the caller performs: its target and its contents. */
  datatype FileWrite = FileWrite(path: string, contents: string)

  // The fixed text of a rule line before the address, between the
  // address and the name, and after the name.
  const LineStart := "SUBSYSTEM==\"net\", " + "ACTION==\"add\", " + "ATTR{address}==\""
  const LineMiddle := "\", NAME=\""
  const LineEnd := "\""

  /** A rule's line without its terminating newline. */
  function LineBody(r: Rule): string
  {
    LineStart + JsString(r.mac) + LineMiddle + r.name + LineEnd
  }

  /** A rule's line, newline-terminated. */
  function Line(r: Rule): string
  {
    LineBody(r) + "\n"
  }

  /** The lines of all rules, in order. */
  function Rendered(rules: seq<Rule>): string
  {
    if rules == [] then "" else Line(rules[0]) + Rendered(rules[1..])
  }

  lemma {:induction false} RenderedAppend(a: seq<Rule>, b: seq<Rule>)
    ensures Rendered(a + b) == Rendered(a) + Rendered(b)
  {
    if a != [] {
      assert (a + b)[0] == a[0];
      assert (a + b)[1..] == a[1..] + b;
      RenderedAppend(a[1..], b);
    } else {
      assert a + b == b;
    }
  }

  /** writeNetworkRules: nothing is written for a missing or empty list;
      otherwise the rules file receives the rule lines in list order. */
  method WriteNetworkRules(configs: Option<seq<Rule>>) returns (w: Option<FileWrite>)
    ensures w.None? <==> (configs.None? || configs.value == [])
    ensures w.Some? ==> w.value == FileWrite(RulesPath, Rendered(configs.value))
  {
    if configs.None? {
      return None;
    }
    var cs := configs.value;
    if |cs| == 0 {
      return None;
    }
    var rules := "";
    for i := 0 to |cs|
      invariant rules == Rendered(cs[..i])
    {
      RenderedAppend(cs[..i], [cs[i]]);
      assert cs[..i + 1] == cs[..i] + [cs[i]];
      rules := rules + Line(cs[i]);
    }
    assert cs[..|cs|] == cs;
    w := Some(FileWrite(RulesPath, rules));
  }

  /** Neither the address nor the name of the rule breaks a line. */
  predicate NoLineBreak(r: Rule)
  {
    '\n' !in JsString(r.mac) && '\n' !in r.name
  }

  lemma BodyHasNoNewline(r: Rule)
    requires NoLineBreak(r)
    ensures '\n' !in LineBody(r)
  {
    assert '\n' !in LineStart && '\n' !in LineMiddle && '\n' !in LineEnd;
  }

  function Count(s: string, c: char): nat
  {
    if s == [] then 0 else (if s[0] == c then 1 else 0) + Count(s[1..], c)
  }

  lemma {:induction false} CountAppend(a: string, b: string, c: char)
    ensures Count(a + b, c) == Count(a, c) + Count(b, c)
  {
    if a != [] {
      assert (a + b)[0] == a[0];
      assert (a + b)[1..] == a[1..] + b;
      CountAppend(a[1..], b, c);
    } else {
      assert a + b == b;
    }
  }

  lemma {:induction false} CountAbsent(s: string, c: char)
    requires c !in s
    ensures Count(s, c) == 0
  {
    if s != [] {
      CountAbsent(s[1..], c);
    }
  }

  /** The rules file holds exactly one newline per rule. */
  lemma {:induction false} NewlineCount(rules: seq<Rule>)
    requires forall i :: 0 <= i < |rules| ==> NoLineBreak(rules[i])
    ensures Count(Rendered(rules), '\n') == |rules|
  {
    if rules != [] {
      var r := rules[0];
      NewlineCount(rules[1..]);
      BodyHasNoNewline(r);
      CountAbsent(LineBody(r), '\n');
      CountAppend(LineBody(r), "\n", '\n');
      CountAppend(Line(r), Rendered(rules[1..]), '\n');
    }
  }

  /** Index of the first occurrence of c in s. */
  function FirstIndex(s: string, c: char): (r: Option<nat>)
    ensures r.Some? ==> r.value < |s| && s[r.value] == c && c !in s[..r.value]
    ensures r.None? ==> c !in s
  {
    if s == [] then None
    else if s[0] == c then Some(0)
    else match FirstIndex(s[1..], c)
      case None => None
      case Some(i) => assert s[..i + 1] == [s[0]] + s[1..][..i]; Some(i + 1)
  }

  lemma FirstIndexAfter(a: string, c: char, b: string)
    requires c !in a
    ensures FirstIndex(a + [c] + b, c) == Some(|a|)
  {
    var s := a + [c] + b;
    assert s[|a|] == c;
    assert s[..|a|] == a;
  }

  /** The newline-terminated lines of a text; an unterminated tail is the
      last line. */
  function SplitLines(s: string): seq<string>
    decreases |s|
  {
    if s == [] then []
    else match FirstIndex(s, '\n')
      case None => [s]
      case Some(i) => [s[..i]] + SplitLines(s[i + 1..])
  }

  lemma SplitLinesCons(body: string, rest: string)
    requires '\n' !in body
    ensures SplitLines(body + "\n" + rest) == [body] + SplitLines(rest)
  {
    var s := body + "\n" + rest;
    FirstIndexAfter(body, '\n', rest);
    assert s[..|body|] == body;
    assert s[|body| + 1..] == rest;
  }

  /** The bodies of the rule lines, one per rule. */
  function Bodies(rules: seq<Rule>): (ls: seq<string>)
    ensures |ls| == |rules|
    ensures forall i :: 0 <= i < |rules| ==> ls[i] == LineBody(rules[i])
  {
    if rules == [] then [] else [LineBody(rules[0])] + Bodies(rules[1..])
  }

  /** Line i of the rules file is the line of rule i. */
  lemma {:induction false} RenderedLines(rules: seq<Rule>)
    requires forall i :: 0 <= i < |rules| ==> NoLineBreak(rules[i])
    ensures SplitLines(Rendered(rules)) == Bodies(rules)
  {
    if rules != [] {
      var r := rules[0];
      BodyHasNoNewline(r);
      SplitLinesCons(LineBody(r), Rendered(rules[1..]));
      RenderedLines(rules[1..]);
    }
  }

  /** Reads a rule line back into its address text and its name; the
      partner of LineBody. */
  function ParseLine(l: string): Option<(string, string)>
  {
    if |l| < |LineStart| || l[..|LineStart|] != LineStart then None
    else ParseAfterStart(l[|LineStart|..])
  }

  /** The address text up to the next double quote, then the name between
      LineMiddle and the closing quote. */
  function ParseAfterStart(rest: string): Option<(string, string)>
  {
    match FirstIndex(rest, '"')
    case None => None
    case Some(m) =>
      var tail := rest[m..];
      if |tail| > |LineMiddle| && tail[..|LineMiddle|] == LineMiddle && tail[|tail| - 1] == '"'
      then Some((rest[..m], tail[|LineMiddle|..|tail| - 1]))
      else None
  }

  lemma ParseAfterStartBody(m: string, n: string)
    requires '"' !in m
    ensures ParseAfterStart(m + LineMiddle + n + LineEnd) == Some((m, n))
  {
    var rest := m + LineMiddle + n + LineEnd;
    assert rest == m + ['"'] + (LineMiddle[1..] + n + LineEnd);
    FirstIndexAfter(m, '"', LineMiddle[1..] + n + LineEnd);
    var tail := rest[|m|..];
    assert tail == LineMiddle + n + LineEnd;
    assert rest[..|m|] == m;
    assert tail[..|LineMiddle|] == LineMiddle;
    assert tail[|LineMiddle|..|tail| - 1] == n;
  }

  /** A rule line reads back as the rule's address text and name, provided
      the address holds no double quote. */
  lemma ParseLineBody(r: Rule)
    requires '"' !in JsString(r.mac)
    ensures ParseLine(LineBody(r)) == Some((JsString(r.mac), r.name))
  {
    var m, n := JsString(r.mac), r.name;
    var rest := m + LineMiddle + n + LineEnd;
    var l := LineBody(r);
    assert l == LineStart + rest;
    assert l[..|LineStart|] == LineStart;
    assert l[|LineStart|..] == rest;
    ParseAfterStartBody(m, n);
  }

  /** The whole rules file reads back rule by rule, in order. */
  lemma RulesFileRoundTrip(rules: seq<Rule>)
    requires forall i :: 0 <= i < |rules| ==> NoLineBreak(rules[i]) && '"' !in JsString(rules[i].mac)
    ensures |SplitLines(Rendered(rules))| == |rules|
    ensures forall i :: 0 <= i < |rules| ==>
      ParseLine(SplitLines(Rendered(rules))[i]) == Some((JsString(rules[i].mac), rules[i].name))
  {
    RenderedLines(rules);
    forall i | 0 <= i < |rules|
      ensures ParseLine(SplitLines(Rendered(rules))[i]) == Some((JsString(rules[i].mac), rules[i].name))
    {
      ParseLineBody(rules[i]);
    }
  }

  /** The line of the test suite for eth0 at 00:11:22:33:44:55. */
  lemma RenderedExample()
    ensures Rendered([Rule("eth0", Str("00:11:22:33:44:55"))])
         == "SUBSYSTEM==\"net\", " + "ACTION==\"add\", " + "ATTR{address}==\"" + "00:11:22:33:44:55"
            + "\", NAME=\"eth0\"\n"
  {
  }
}
