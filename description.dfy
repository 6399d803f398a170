/**
 * The format of the text `Output` produces. A reader of that text (the user
 * at the terminal) recovers the verb, the resource kind, the resource name
 * and, for an update, the diff block. `ParseDescription` is that reader; the
 * lemmas show it inverts the description exactly, and so pin down what each
 * kind of record is described as.
 */
module DescriptionFormat {
  import opened Wrappers
  import opened Errors
  import opened Events

  /** The position of the first `c` in `s`, or `|s|` when there is none. */
  function FindChar(s: string, c: char): (k: nat)
    ensures k <= |s|
    ensures k < |s| ==> s[k] == c
    ensures forall i :: 0 <= i < k ==> s[i] != c
  {
    if s == [] || s[0] == c then 0
    else
      var k := 1 + FindChar(s[1..], c);
      assert forall i :: 1 <= i < k ==> s[i] == s[1..][i - 1];
      k
  }

  lemma FindCharAfter(a: string, c: char, b: string)
    requires c !in a
    ensures FindChar(a + [c] + b, c) == |a|
  {
    var s := a + [c] + b;
    assert forall j :: 0 <= j < |a| ==> s[j] == a[j];
    assert s[|a|] == c;
  }

  lemma FindCharAbsent(a: string, c: char)
    requires c !in a
    ensures FindChar(a, c) == |a|
  {
  }

  /** The first line of a description: verb, resource kind and name. */
  datatype Header = Header(verb: string, resourceType: ResourceType, name: string)

  /** A whole description: its first line and, after a newline, the rest. */
  datatype Parsed = Parsed(header: Header, body: Option<string>)

  /** Reads `<kind>: "<name>"`: the kind ends at the first colon, the name is quoted to the end. */
  function ParseTarget(rest: string): Option<(ResourceType, string)> {
    var k := FindChar(rest, ':');
    if k + 4 > |rest| || rest[k + 1] != ' ' || rest[k + 2] != '"' || rest[|rest| - 1] != '"' then None
    else Some((rest[..k], rest[k + 3..|rest| - 1]))
  }

  /** Reads `<verb> <kind>: "<name>"`: the verb ends at the first space. */
  function ParseHeadline(line: string): Option<Header> {
    var i := FindChar(line, ' ');
    if i == |line| then None
    else
      match ParseTarget(line[i + 1..])
      case None => None
      case Some((rt, name)) => Some(Header(line[..i], rt, name))
  }

  /** Splits a description at its first newline and reads the first line. */
  function ParseDescription(text: string): Option<Parsed> {
    var n := FindChar(text, '\n');
    match ParseHeadline(text[..n])
    case None => None
    case Some(h) => Some(Parsed(h, if n < |text| then Some(text[n + 1..]) else None))
  }

  /** The text a parsed description stands for. */
  function Render(p: Parsed): string {
    var line := Headline(p.header.verb, p.header.resourceType, p.header.name);
    if p.body.Some? then line + "\n" + p.body.value else line
  }

  /** Reading `<kind>: "<name>"` gives back the kind and name, for a kind without colons. */
  lemma TargetRoundTrip(rt: ResourceType, name: string)
    requires ':' !in rt
    ensures ParseTarget(rt + ": \"" + name + "\"") == Some((rt, name))
  {
    var tail := [' ', '"'] + name + ['"'];
    var rest := rt + [':'] + tail;
    assert rest == rt + ": \"" + name + "\"";
    FindCharAfter(rt, ':', tail);
    assert rest[..|rt|] == rt;
    assert rest[|rt| + 1..] == tail;
    assert rest[|rt| + 3..|rest| - 1] == name;
  }

  /** Reading a headline gives back the verb, kind and name it was made of. */
  lemma HeadlineRoundTrip(verb: string, rt: ResourceType, name: string)
    requires ' ' !in verb && ':' !in rt
    ensures ParseHeadline(Headline(verb, rt, name)) == Some(Header(verb, rt, name))
  {
    var rest := rt + ": \"" + name + "\"";
    var line := verb + [' '] + rest;
    FindCharAfter(verb, ' ', rest);
    assert line[..|verb|] == verb;
    assert line[|verb| + 1..] == rest;
    TargetRoundTrip(rt, name);
  }

  /** Whatever `ParseTarget` accepts is exactly `<kind>: "<name>"` of what it returns. */
  lemma ParseTargetExact(rest: string)
    requires ParseTarget(rest).Some?
    ensures rest == ParseTarget(rest).value.0 + ": \"" + ParseTarget(rest).value.1 + "\""
  {
  }

  /** Whatever `ParseHeadline` accepts is exactly the headline of what it returns. */
  lemma ParseHeadlineExact(line: string)
    requires ParseHeadline(line).Some?
    ensures var h := ParseHeadline(line).value; line == Headline(h.verb, h.resourceType, h.name)
  {
    var i := FindChar(line, ' ');
    var rest := line[i + 1..];
    ParseTargetExact(rest);
    var t := ParseTarget(rest).value;
    assert ParseHeadline(line).value == Header(line[..i], t.0, t.1);
    assert Headline(line[..i], t.0, t.1) == line[..i] + " " + rest;
    assert line == line[..i] + [line[i]] + rest;
  }

  /** Two headlines with the same verb and kind are equal exactly when they name the same resource. */
  lemma HeadlineInjective(verb: string, rt: ResourceType, a: string, b: string)
    ensures Headline(verb, rt, a) == Headline(verb, rt, b) <==> a == b
  {
    var prefix := verb + " " + rt + ": \"";
    assert Headline(verb, rt, a) == prefix + a + "\"";
    assert Headline(verb, rt, b) == prefix + b + "\"";
    if Headline(verb, rt, a) == Headline(verb, rt, b) {
      var h := Headline(verb, rt, a);
      assert a == h[|prefix|..|h| - 1];
      assert b == h[|prefix|..|h| - 1];
    }
  }

  /** Reading a description built from a headline and an optional body gives both back. */
  lemma DescriptionRoundTrip(p: Parsed)
    requires ' ' !in p.header.verb && ':' !in p.header.resourceType
    requires '\n' !in p.header.verb && '\n' !in p.header.resourceType && '\n' !in p.header.name
    ensures ParseDescription(Render(p)) == Some(p)
  {
    var h := p.header;
    var line := Headline(h.verb, h.resourceType, h.name);
    assert '\n' !in line by {
      assert line == h.verb + " " + (h.resourceType + ": \"" + h.name + "\"");
    }
    var text := Render(p);
    if p.body.Some? {
      assert text == line + ['\n'] + p.body.value;
      FindCharAfter(line, '\n', p.body.value);
      assert text[..|line|] == line;
      assert text[|line| + 1..] == p.body.value;
    } else {
      assert text == line;
      FindCharAbsent(line, '\n');
      assert text[..|line|] == line;
    }
    HeadlineRoundTrip(h.verb, h.resourceType, h.name);
  }

  /** Whatever `ParseDescription` accepts is exactly the rendering of what it returns. */
  lemma ParseDescriptionExact(text: string)
    requires ParseDescription(text).Some?
    ensures Render(ParseDescription(text).value) == text
  {
    var n := FindChar(text, '\n');
    ParseHeadlineExact(text[..n]);
    if n < |text| {
      assert text == text[..n] + "\n" + text[n + 1..];
    } else {
      assert text == text[..n];
    }
  }

  /** A resource kind and name that the description can carry unambiguously. */
  predicate Readable(rt: ResourceType, name: string) {
    ':' !in rt && '\n' !in rt && '\n' !in name
  }

  /**
   * A create is described, without error, by exactly the line `creating <kind>: "<name>"` with
   * the name of the new value; when kind and name are readable, that line reads back to them.
   */
  lemma DescribeCreate(e: Event, codec: Codec)
    requires e.option == CreateOption && e.value.Some?
    ensures Output(e, codec) == Described(Headline("creating", e.resourceType, e.value.value.name), None)
    ensures Readable(e.resourceType, e.value.value.name) ==>
      ParseDescription(Output(e, codec).text)
        == Some(Parsed(Header("creating", e.resourceType, e.value.value.name), None))
  {
    var p := Parsed(Header("creating", e.resourceType, e.value.value.name), None);
    assert Output(e, codec).text == Render(p);
    if Readable(e.resourceType, e.value.value.name) {
      assert ' ' !in p.header.verb && '\n' !in p.header.verb;
      DescriptionRoundTrip(p);
    }
  }

  /**
   * A delete is described, without error, by exactly the line `deleting <kind>: "<name>"` with
   * the name of the old value; when kind and name are readable, that line reads back to them.
   */
  lemma DescribeDelete(e: Event, codec: Codec)
    requires e.option == DeleteOption && e.oldValue.Some?
    ensures Output(e, codec) == Described(Headline("deleting", e.resourceType, e.oldValue.value.name), None)
    ensures Readable(e.resourceType, e.oldValue.value.name) ==>
      ParseDescription(Output(e, codec).text)
        == Some(Parsed(Header("deleting", e.resourceType, e.oldValue.value.name), None))
  {
    var p := Parsed(Header("deleting", e.resourceType, e.oldValue.value.name), None);
    assert Output(e, codec).text == Render(p);
    if Readable(e.resourceType, e.oldValue.value.name) {
      assert ' ' !in p.header.verb && '\n' !in p.header.verb;
      DescriptionRoundTrip(p);
    }
  }

  /** The diff block of an update: encoded old value (labelled remote) against encoded new value (labelled local). */
  function UpdateDiff(e: Event, codec: Codec): string
    requires codec.marshal(e.oldValue).Success? && codec.marshal(e.value).Success?
  {
    codec.unifiedDiff(RemoteLabel, LocalLabel,
      codec.marshal(e.oldValue).value + "\n", codec.marshal(e.value).value + "\n")
  }

  /**
   * An update whose values both encode is described, without error, by the headline with the
   * kind and the name of the new value, a newline, then the diff block; when kind and name are
   * readable, the text reads back to all three.
   */
  lemma DescribeUpdate(e: Event, codec: Codec)
    requires e.option == UpdateOption && e.value.Some?
    requires codec.marshal(e.oldValue).Success? && codec.marshal(e.value).Success?
    ensures Output(e, codec) ==
      Described(Headline("updating", e.resourceType, e.value.value.name) + "\n" + UpdateDiff(e, codec), None)
    ensures Readable(e.resourceType, e.value.value.name) ==>
      ParseDescription(Output(e, codec).text)
        == Some(Parsed(Header("updating", e.resourceType, e.value.value.name), Some(UpdateDiff(e, codec))))
  {
    var p := Parsed(Header("updating", e.resourceType, e.value.value.name), Some(UpdateDiff(e, codec)));
    assert Output(e, codec).text == Render(p);
    if Readable(e.resourceType, e.value.value.name) {
      assert ' ' !in p.header.verb && '\n' !in p.header.verb;
      DescriptionRoundTrip(p);
    }
  }

  /** An update whose old or new value fails to encode yields no text and the first encoding error. */
  lemma DescribeUpdateFailure(e: Event, codec: Codec)
    requires e.option == UpdateOption
    requires codec.marshal(e.oldValue).Failure? || codec.marshal(e.value).Failure?
    ensures CanDescribe(e, codec)
    ensures Output(e, codec) == Described("",
      Some(if codec.marshal(e.oldValue).Failure? then codec.marshal(e.oldValue).error
           else codec.marshal(e.value).error))
  {
  }

  /** A record with an unknown option is described by the empty text and no error. */
  lemma DescribeUnknownOption(e: Event, codec: Codec)
    requires !IsKnownOption(e.option)
    ensures CanDescribe(e, codec) && Output(e, codec) == Described("", None)
  {
  }

  /** The diff renderer produces nothing for two identical texts. */
  ghost predicate IdentityDiffIsEmpty(codec: Codec) {
    forall before :: codec.unifiedDiff(RemoteLabel, LocalLabel, before, before) == ""
  }

  /**
   * With such a renderer, an update whose two values encode to the same text
   * is described by its headline and a newline alone.
   */
  lemma DescribeUnchangedUpdate(e: Event, codec: Codec)
    requires IdentityDiffIsEmpty(codec)
    requires e.option == UpdateOption && e.value.Some?
    requires codec.marshal(e.oldValue).Success? && codec.marshal(e.oldValue) == codec.marshal(e.value)
    ensures Output(e, codec) == Described(Headline("updating", e.resourceType, e.value.value.name) + "\n", None)
  {
  }

  /** A create never reads the old value, and a delete never reads the new one. */
  lemma DescriptionIgnoresUnreadValue(e: Event, codec: Codec, other: Option<Resource>)
    requires CanDescribe(e, codec)
    ensures e.option == CreateOption ==>
      CanDescribe(e.(oldValue := other), codec) && Output(e.(oldValue := other), codec) == Output(e, codec)
    ensures e.option == DeleteOption ==>
      CanDescribe(e.(value := other), codec) && Output(e.(value := other), codec) == Output(e, codec)
  {
  }
}
