/** The plain-text notification body built from an accepted report: a fixed
    header, one `Key: value` line per string-valued field of `csp-report`,
    and a block of server details. */
module Report {
  import opened Basics
  import opened Html

  /** The value of one `csp-report` field, as far as the formatter cares:
      a JSON string, or anything else (number, boolean, null, array,
      object), which the formatter skips. */
  datatype Value = Str(s: string) | Other

  /** One `csp-report` entry, in the order the decoded object holds them. */
  datatype Field = Field(key: string, value: Value)

  const Header := "CSP Violation Report\n" + "===================\n\n"

  /** The line a field contributes: empty for a non-string value. */
  function Line(f: Field): string {
    if f.value.Str? then Ucfirst(Escape(f.key)) + ": " + Escape(f.value.s) + "\n" else ""
  }

  function Lines(fields: seq<Field>): string {
    if fields == [] then "" else Line(fields[0]) + Lines(fields[1..])
  }

  /** The server-details block; the origin is the one the handler validated. */
  function Trailer(time: string, ip: string, origin: string): string {
    "\nServer Details:\n" + ("Time: " + time + "\n") + ("IP: " + ip + "\n") + ("Origin: " + origin + "\n")
  }

  /** The whole body handed to the mail sender. */
  function ReportText(fields: seq<Field>, time: string, ip: string, origin: string): string {
    Header + Lines(fields) + Trailer(time, ip, origin)
  }

  /** Lines 67-81 of `csp-reporting.php`: the body is accumulated with `.=`, one field at a time. */
  method FormatReport(fields: seq<Field>, time: string, ip: string, origin: string) returns (body: string)
    ensures body == ReportText(fields, time, ip, origin)
  {
    body := "CSP Violation Report\n";
    body := body + "===================\n\n";
    for i := 0 to |fields|
      invariant body == Header + Lines(fields[..i])
    {
      var field := fields[i];
      ghost var before := body;
      if field.value.Str? {
        var key := Escape(field.key);
        var value := Escape(field.value.s);
        body := body + (Ucfirst(key) + ": " + value + "\n");
      }
      assert body == before + Line(field);
      LinesPrefix(fields, i);
      ConcatAssoc(Header, Lines(fields[..i]), Line(field));
    }
    assert fields[..|fields|] == fields;
    ghost var withFields := body;
    body := body + "\nServer Details:\n";
    body := body + ("Time: " + time + "\n");
    body := body + ("IP: " + ip + "\n");
    body := body + ("Origin: " + origin + "\n");
    TrailerAppended(withFields, time, ip, origin);
  }

  lemma {:induction false} LinesPrefix(fields: seq<Field>, i: nat)
    requires i < |fields|
    ensures Lines(fields[..i + 1]) == Lines(fields[..i]) + Line(fields[i])
  {
    assert fields[..i + 1] == fields[..i] + [fields[i]];
    LinesAppend(fields[..i], fields[i]);
  }

  lemma {:induction false} TrailerAppended(prefix: string, time: string, ip: string, origin: string)
    ensures prefix + "\nServer Details:\n" + ("Time: " + time + "\n") + ("IP: " + ip + "\n") + ("Origin: " + origin + "\n")
         == prefix + Trailer(time, ip, origin)
  {
  }

  lemma {:induction false} LinesAppend(fields: seq<Field>, f: Field)
    ensures Lines(fields + [f]) == Lines(fields) + Line(f)
  {
    LinesConcat(fields, [f]);
    assert [f][1..] == [];
  }

  /** The field lines of two runs of fields are those of each, in order. */
  lemma {:induction false} LinesConcat(a: seq<Field>, b: seq<Field>)
    ensures Lines(a + b) == Lines(a) + Lines(b)
  {
    if a == [] {
      assert a + b == b;
    } else {
      assert (a + b)[0] == a[0];
      assert (a + b)[1..] == a[1..] + b;
      LinesConcat(a[1..], b);
      ConcatAssoc(Line(a[0]), Lines(a[1..]), Lines(b));
    }
  }

  /** A string-valued field contributes exactly one line, escaped, with the
      key's first letter capitalised, at its position among the fields. */
  lemma {:induction false} LinesStringField(before: seq<Field>, f: Field, after: seq<Field>)
    requires f.value.Str?
    ensures Lines(before + [f] + after) == Lines(before) + Line(f) + Lines(after)
    ensures Line(f) == Ucfirst(Escape(f.key)) + ": " + Escape(f.value.s) + "\n"
  {
    LinesConcat(before + [f], after);
    LinesAppend(before, f);
  }

  /** A field whose value is not a string contributes nothing. */
  lemma {:induction false} LinesOtherField(before: seq<Field>, f: Field, after: seq<Field>)
    requires f.value.Other?
    ensures Lines(before + [f] + after) == Lines(before) + Lines(after)
  {
    LinesConcat(before + [f], after);
    LinesAppend(before, f);
  }

  /** Whatever the fields hold, their lines carry no raw markup. */
  lemma {:induction false} LinesNoRawMarkup(fields: seq<Field>)
    ensures NoRawMarkup(Lines(fields))
  {
    if fields != [] {
      LinesNoRawMarkup(fields[1..]);
      var f := fields[0];
      if f.value.Str? {
        var key := Ucfirst(Escape(f.key));
        UcfirstNoRawMarkup(Escape(f.key));
        NoRawMarkupConcat(key, ": ");
        NoRawMarkupConcat(key + ": ", Escape(f.value.s));
        NoRawMarkupConcat(key + ": " + Escape(f.value.s), "\n");
      }
      NoRawMarkupConcat(Line(f), Lines(fields[1..]));
    }
  }

  /** The body carries no raw markup as long as the three server-side strings
      (time, client address, origin) carry none. */
  lemma {:induction false} ReportNoRawMarkup(fields: seq<Field>, time: string, ip: string, origin: string)
    requires NoRawMarkup(time) && NoRawMarkup(ip) && NoRawMarkup(origin)
    ensures NoRawMarkup(ReportText(fields, time, ip, origin))
  {
    LinesNoRawMarkup(fields);
    HeaderNoRawMarkup();
    TrailerNoRawMarkup(time, ip, origin);
    NoRawMarkupConcat(Header, Lines(fields));
    NoRawMarkupConcat(Header + Lines(fields), Trailer(time, ip, origin));
  }

  lemma {:induction false} HeaderNoRawMarkup()
    ensures NoRawMarkup(Header)
  {
    assert NoRawMarkup("CSP Violation Report\n");
    assert NoRawMarkup("===================\n\n");
    NoRawMarkupConcat("CSP Violation Report\n", "===================\n\n");
  }

  lemma {:induction false} TrailerNoRawMarkup(time: string, ip: string, origin: string)
    requires NoRawMarkup(time) && NoRawMarkup(ip) && NoRawMarkup(origin)
    ensures NoRawMarkup(Trailer(time, ip, origin))
  {
    TaggedLineNoRawMarkup("Time: ", time);
    TaggedLineNoRawMarkup("IP: ", ip);
    TaggedLineNoRawMarkup("Origin: ", origin);
    var details, t, i, o := "\nServer Details:\n", "Time: " + time + "\n", "IP: " + ip + "\n", "Origin: " + origin + "\n";
    assert NoRawMarkup(details);
    NoRawMarkupConcat(details, t);
    NoRawMarkupConcat(details + t, i);
    NoRawMarkupConcat(details + t + i, o);
  }

  lemma {:induction false} TaggedLineNoRawMarkup(tag: string, s: string)
    requires NoRawMarkup(tag) && NoRawMarkup(s)
    ensures NoRawMarkup(tag + s + "\n")
  {
    NoRawMarkupConcat(tag, s);
    NoRawMarkupConcat(tag + s, "\n");
  }

  /** A string field whose key and value need no escaping is printed as is,
      the key's first letter capitalised. */
  lemma {:induction false} PlainLine(key: string, value: string)
    requires NoSpecial(key) && NoSpecial(value)
    ensures Line(Field(key, Str(value))) == Ucfirst(key) + ": " + value + "\n"
  {
    EscapeIdentity(key);
    EscapeIdentity(value);
  }

  /** A tag in a field value, such as `<script>`, reaches the body only in
      escaped form. */
  lemma {:induction false} LineEscapesTag(key: string, name: string)
    requires NoSpecial(name)
    ensures Line(Field(key, Str("<" + name + ">"))) == Ucfirst(Escape(key)) + ": " + ("&lt;" + name + "&gt;") + "\n"
  {
    EscapeIdentity(name);
    EscapeConcat("<" + name, ">");
    EscapeConcat("<", name);
    assert Escape("<") == "&lt;" + Escape([]);
    assert Escape(">") == "&gt;" + Escape([]);
  }
}
