/** Settings written to and read from their INI files (write_setting, read_setting_value in
    scripts/admin-http.py), on top of the INI engine. The value is given as
    normalize_value leaves it: stripped. */
module Settings {
  import opened Wrappers
  import opened Ascii
  import opened IniSyntax
  import opened IniMerge
  import opened IniLaws
  import opened IniArrayReads
  import opened IniFlatLaws

  datatype Setting = Setting(section: Option<string>, key: string, quoted: bool, repeated: bool)

  /** render_value: None when a quoted value holds a quote; a blank renders bare. */
  function Render(raw: string, quoted: bool): Option<string> {
    if !quoted then Some(raw)
    else if '"' in raw then None
    else if raw == "" then Some("")
    else Some("\"" + raw + "\"")
  }

  /** split(",") without the empty elements. */
  function Elements(s: string): seq<string> { NonEmpty(SplitComma(s)) }

  function SplitComma(s: string): (parts: seq<string>)
    ensures parts != []
  {
    if s == "" then [""]
    else
      var rest := SplitComma(s[1..]);
      if s[0] == ',' then [""] + rest else [[s[0]] + rest[0]] + rest[1..]
  }

  function NonEmpty(parts: seq<string>): seq<string> {
    if parts == [] then [] else (if parts[0] == "" then [] else [parts[0]]) + NonEmpty(parts[1..])
  }

  function SectionOf(st: Setting): string { if st.section.Some? then st.section.value else "" }

  /** The new text of the file, or None when the value is refused. */
  function Write(text: string, st: Setting, norm: string): Option<string> {
    if st.repeated then Some(UpsertRepeated(text, SectionOf(st), st.key, Elements(norm)))
    else
      var rendered := Render(norm, st.quoted);
      if rendered.None? then None
      else if st.section.None? then Some(UpsertFlat(text, st.key, rendered.value))
      else Some(UpsertKeyed(text, st.section.value, st.key, rendered.value))
  }

  function Unquote(val: string, quoted: bool): string {
    if quoted && |val| >= 2 && val[0] == '"' && val[|val| - 1] == '"' then val[1..|val| - 1] else val
  }

  function Read(text: string, st: Setting): Option<string> {
    if st.repeated then ReadRepeated(text, SectionOf(st), st.key)
    else
      var val := if st.section.None? then ReadFlat(text, st.key) else ReadKeyed(text, st.section.value, st.key);
      if val.None? then None else Some(Unquote(val.value, st.quoted))
  }

  // ---------------------------------------------------------------- round trip

  /** Text with nothing to strip on either side. */
  lemma Unstripped(s: string)
    requires s == "" || (!IsSpace(s[0]) && !IsSpace(s[|s| - 1]))
    ensures Strip(s) == s
  {
    if s != "" {
      assert s[0..] == s;
      RTrimUnique(s, |s|);
      assert s[..|s|] == s;
    }
  }

  lemma StrippedEnds(s: string)
    requires Strip(s) == s && s != ""
    ensures !IsSpace(s[0]) && !IsSpace(s[|s| - 1])
  {
    assert SpaceEnd(s, 0) + |Strip(s)| <= |s|;
    assert s[0..] == s;
  }

  /** The first line of a value that does span lines is not the whole of it. */
  lemma FirstLineShort(norm: string)
    requires Strip(norm) == norm && '\n' in norm
    ensures Strip(FirstLine(norm)) != norm
  {
    var u := FirstLine(norm);
    if u == norm { assert '\n' !in u; }
    assert |u| < |norm|;
    StrippedEnds(norm);
    var tail := norm[|u|..];
    assert !IsSpace(tail[|tail| - 1]);
    StripFirstLine(norm);
  }

  /** What a plain setting reads back as, from the first line of its rendering. */
  lemma RenderedReads(norm: string, quoted: bool)
    requires Strip(norm) == norm && Render(norm, quoted).Some?
    ensures Unquote(Strip(FirstLine(Render(norm, quoted).value)), quoted) == norm <==> '\n' !in norm
  {
    var rendered := Render(norm, quoted).value;
    if rendered == norm {
      PlainReads(norm, quoted);
    } else {
      QuotedReads(norm);
    }
  }

  lemma PlainReads(norm: string, quoted: bool)
    requires Strip(norm) == norm && (quoted ==> '"' !in norm)
    ensures Unquote(Strip(FirstLine(norm)), quoted) == norm <==> '\n' !in norm
  {
    hide Strip, Unquote, FirstLine;
    var u := FirstLine(norm);
    StripWithin(u);
    assert forall c | c in u :: c in norm;
    NothingQuoted(Strip(u), quoted);
    if '\n' !in norm {
      WholeLine(norm);
    } else {
      FirstLineShort(norm);
    }
  }

  lemma NothingQuoted(val: string, quoted: bool)
    requires quoted ==> '"' !in val
    ensures Unquote(val, quoted) == val
  {
  }

  lemma StripWithin(s: string)
    ensures forall c | c in Strip(s) :: c in s
  {
    assert forall c | c in Strip(s) :: c in s[SpaceEnd(s, 0)..];
  }

  lemma QuotedReads(norm: string)
    requires '"' !in norm && norm != ""
    ensures Unquote(Strip(FirstLine("\"" + norm + "\"")), true) == norm <==> '\n' !in norm
  {
    var rendered := "\"" + norm + "\"";
    if '\n' !in norm {
      WholeLine(rendered);
      Unstripped(rendered);
      assert rendered[1..|rendered| - 1] == norm;
    } else {
      var u := FirstLine(rendered);
      NewlineCuts(norm, "\"");
      assert u == "\"" + FirstLine(norm);
      StripFirst(u);
      var val := Strip(u);
      StripWithin(u);
      assert val[0] == '"';
      assert Unquote(val, true) == val by { LastIsNoQuote(val, u, FirstLine(norm)); }
    }
  }

  lemma NewlineCuts(norm: string, after: string)
    requires '\n' in norm
    ensures FirstLine("\"" + norm + after) == "\"" + FirstLine(norm)
  {
    assert "\"" + norm + after == "\"" + (norm + after);
    FirstLineConcat("\"", norm + after);
    FirstLineCut(norm, after);
  }

  lemma {:induction false} FirstLineCut(norm: string, after: string)
    requires '\n' in norm
    ensures FirstLine(norm + after) == FirstLine(norm)
  {
    assert (norm + after)[0] == norm[0];
    if norm[0] != '\n' {
      assert (norm + after)[1..] == norm[1..] + after;
      assert norm == [norm[0]] + norm[1..];
      FirstLineCut(norm[1..], after);
    }
  }

  lemma LastIsNoQuote(val: string, u: string, rest: string)
    requires u == "\"" + rest && '"' !in rest && val == Strip(u)
    ensures |val| >= 2 ==> val[|val| - 1] != '"'
  {
    SpaceEndUnique(u, 0, 0);
    assert u[0..] == u;
    assert val == u[..|val|];
    if |val| >= 2 { assert val[|val| - 1] == rest[|val| - 2]; }
  }

  /** A setting that is not an array reads back as the value written, whatever the file
      held before, exactly when the value is a single line. */
  lemma SettingReadsBackIff(text: string, st: Setting, norm: string)
    requires ValidKey(st.key) && (st.section.Some? ==> ValidSection(st.section.value))
    requires !st.repeated && Strip(norm) == norm && Write(text, st, norm).Some?
    ensures Read(Write(text, st, norm).value, st) == Some(norm) <==> '\n' !in norm
  {
    var rendered := Render(norm, st.quoted).value;
    RenderedReads(norm, st.quoted);
    if st.section.None? {
      FlatReadBack(text, st.key, rendered);
    } else {
      KeyedReadBack(text, st.section.value, st.key, rendered);
    }
    hide ReadFlat, ReadKeyed, UpsertFlat, UpsertKeyed, Render, Strip, FirstLine, Unquote;
  }

  /** A value is refused exactly when it would be quoted and holds a quote; otherwise it is
      written in quotes if the setting is quoted and the value is not blank, in the setting's
      section or, without one, in the file as a whole. */
  lemma SettingWrites(text: string, st: Setting, norm: string)
    requires !st.repeated
    ensures Write(text, st, norm).None? <==> st.quoted && '"' in norm
    ensures Write(text, st, norm).Some? ==>
              var v := if st.quoted && norm != "" then "\"" + norm + "\"" else norm;
              Write(text, st, norm).value == if st.section.Some? then UpsertKeyed(text, st.section.value, st.key, v)
                                             else UpsertFlat(text, st.key, v)
  {
  }

  // ------------------------------------------------------------------- arrays

  predicate Clean(parts: seq<string>) { forall p | p in parts :: p != "" && Strip(p) == p && '\n' !in p }

  lemma {:induction false} CommaSplit(s: string)
    ensures Comma(SplitComma(s)) == s
  {
    if s != "" {
      var rest := SplitComma(s[1..]);
      CommaSplit(s[1..]);
      assert s == [s[0]] + s[1..];
      if s[0] == ',' {
        assert ([""] + rest)[1..] == rest;
        assert "" + "," + Comma(rest) == "," + Comma(rest);
      } else {
        var parts := [[s[0]] + rest[0]] + rest[1..];
        assert parts[1..] == rest[1..];
        if |rest| > 1 {
          assert ([s[0]] + rest[0]) + "," + Comma(rest[1..]) == [s[0]] + (rest[0] + "," + Comma(rest[1..]));
        }
      }
    }
  }

  lemma {:induction false} CleanIsKept(parts: seq<string>)
    requires Clean(parts)
    ensures NonEmpty(parts) == parts && StripAll(parts) == parts
  {
    if parts != [] {
      assert parts[0] in parts && forall p | p in parts[1..] :: p in parts;
      CleanIsKept(parts[1..]);
      assert parts == [parts[0]] + parts[1..];
    }
  }

  /** An array setting reads back as the list written, element by element; an empty list
      clears it. */
  lemma ArrayReadsBack(text: string, st: Setting, norm: string)
    requires st.repeated && ValidKey(st.key) && ValidSection(SectionOf(st))
    requires norm == "" || Clean(SplitComma(norm))
    ensures Read(Write(text, st, norm).value, st) == if norm == "" then None else Some(norm)
  {
    if norm == "" {
      assert NonEmpty([""]) == [] by { assert [""][1..] == []; }
    } else {
      CleanIsKept(SplitComma(norm));
      CommaSplit(norm);
    }
    assert forall p | p in Elements(norm) :: '\n' !in p;
    hide UpsertRepeated, ReadRepeated, Strip, NonEmpty, SplitComma;
    RepeatedReadBack(text, SectionOf(st), st.key, Elements(norm));
  }
}
