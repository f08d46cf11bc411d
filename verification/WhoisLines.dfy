/** What single lines of a WHOIS response say, and that a response written from
    labels and values is read back: `internal/whois/parsers/parse.go`. */
module WhoisLines {
  import opened Base
  import opened Text
  import opened WhoisParse

  // ---- label and value

  ghost predicate IsComment(t: string) {
    "%" <= t || "#" <= t || ">>>" <= t || "--" <= t
  }

  /** Sentence punctuation, or too long for a label. */
  ghost predicate IsSentence(name: string) {
    (('.' in name || '!' in name || '?' in name) && !("[" <= name)) || |name| > 60
  }

  /** Text that brackets its label: it begins with "[" and has a "]". */
  ghost predicate IsBracketed(t: string) {
    "[" <= t && ']' in t
  }

  lemma IndexExists(t: string, c: char)
    ensures IndexOf(t, c) < |t| <==> c in t
  {
    assert t[..|t|] == t;
  }

  lemma {:induction false} CommentsHaveNoColon(name: string, b: string, tail: string)
    requires AllSpace(b)
    ensures IsComment(name + b + ":" + tail) <==> IsComment(name)
  {
    var t := name + b + ":" + tail;
    assert t[..|name|] == name;
    assert t[|name|] == if b == "" then ':' else b[0];
    assert b != "" ==> b[0] in b;
  }

  /** A line with a colon: what stands before the first one, trimmed, is the label,
      and what stands after it, trimmed, the value; there is neither exactly when
      the label is missing, begins a comment, or looks like a sentence. */
  lemma {:induction false} LabelAndValue(pre: string, v: string)
    requires ':' !in pre && !IsBracketed(TrimSpace(pre + ":" + v))
    ensures var name := TrimSpace(pre);
            SplitLine(pre + ":" + v) ==
            if name == "" || IsComment(name) || IsSentence(name) then None else Some((name, TrimSpace(v)))
  {
    hide TrimSpace, TrimCR, IndexOf, AllSpace;
    TrimCRFirst(pre + ":" + v);
    var b, tail := TrimmedAround(pre, ':', v);
    var name := TrimSpace(pre);
    var before := name + b;
    var t := before + ":" + tail;
    assert t[|before|] == ':' && t[..|before|] == before && t[|before| + 1..] == tail;
    FirstIndex(t, ':', |before|);
    IndexExists(t, ']');
    CommentsHaveNoColon(name, b, tail);
    Punctuation(name);
  }

  lemma Punctuation(name: string)
    ensures ContainsAny(name, ".!?") <==> '.' in name || '!' in name || '?' in name
  {
    assert forall c :: c in ".!?" <==> c == '.' || c == '!' || c == '?';
  }

  /** A bracketed label keeps its brackets and needs no colon. */
  lemma {:induction false} BracketedLabel(a: string, inner: string, v: string)
    requires AllSpace(a) && ']' !in inner
    ensures SplitLine(a + "[" + inner + "]" + v) == Some(("[" + inner + "]", TrimSpace(v)))
  {
    hide TrimSpace, TrimCR, IndexOf, IsSpace;
    var line, name := a + "[" + inner + "]" + v, "[" + inner + "]";
    TrimCRFirst(line);
    var c, d := TrimSplits(v);
    var tail, back := if TrimSpace(v) == "" then "" else c + TrimSpace(v), if TrimSpace(v) == "" then v else d;
    TailTrims(c, TrimSpace(v));
    var t := name + tail;
    assert line == a + t + back;
    EndsTrimmed(name, c, TrimSpace(v));
    TrimSpaceIs(a, t, back);
    assert t[|inner| + 1] == ']' && t[..|inner| + 1] == "[" + inner;
    FirstIndex(t, ']', |inner| + 1);
    assert t[..|inner| + 2] == name && t[|inner| + 2..] == tail;
  }

  lemma TailTrims(c: string, val: string)
    requires AllSpace(c) && Trimmed(val)
    ensures TrimSpace(if val == "" then "" else c + val) == val
  {
    hide TrimSpace;
    TrimSpaceIs(if val == "" then "" else c, val, "");
    assert (if val == "" then "" else c) + val + "" == if val == "" then "" else c + val;
  }

  lemma EndsTrimmed(name: string, c: string, val: string)
    requires |name| > 1 && name[0] == '[' && name[|name| - 1] == ']' && Trimmed(val)
    ensures Trimmed(name + if val == "" then "" else c + val)
  {
  }

  /** Every other line says nothing. */
  lemma {:induction false} NoLabel(line: string)
    requires ':' !in line && !IsBracketed(TrimSpace(line))
    ensures SplitLine(line) == None
  {
    hide TrimSpace, TrimCR, IndexOf;
    TrimCRFirst(line);
    var a, b := TrimSplits(line);
    IndexExists(TrimSpace(line), ':');
    IndexExists(TrimSpace(line), ']');
  }

  // ---- the field a label names

  ghost predicate InTemplate(tables: Tables, l: string) {
    tables.template.Some? && l in tables.template.value
  }

  /** The label's case and surrounding white space do not matter. The template
      decides if it lists the label, whatever it maps it to; else the synonyms do;
      else the synonyms for what follows one of three qualifiers. */
  lemma {:induction false} LabelNames(tables: Tables, name: string)
    ensures var l, key := Lower(TrimSpace(name)), Canonical(tables, name);
            && (InTemplate(tables, l) ==> key == tables.template.value[l])
            && (!InTemplate(tables, l) && l in tables.synonyms ==> key == tables.synonyms[l])
            && (!InTemplate(tables, l) && l !in tables.synonyms ==>
                  && (forall p, rest :: p in PREFIXES && l == p + rest && rest in tables.synonyms ==>
                        key == tables.synonyms[rest])
                  && ((forall p, rest :: p in PREFIXES && l == p + rest ==> rest !in tables.synonyms) ==> key == ""))
  {
    hide TrimSpace, Lower;
    var l := Lower(TrimSpace(name));
    forall p, rest | p in PREFIXES && l == p + rest
      ensures StartsWith(l, p) && l[|p|..] == rest
      ensures forall q :: q in PREFIXES && StartsWith(l, q) ==> q == p
    {
      OneQualifier(l, p);
    }
    ByQualifier(tables.synonyms, l, PREFIXES);
  }

  lemma OneQualifier(l: string, p: string)
    requires p in PREFIXES && p <= l
    ensures forall q :: q in PREFIXES && q <= l ==> q == p
  {
    ThreeQualifiers();
    forall q | q in PREFIXES && q <= l
      ensures q == p
    {
      assert l[0] == p[0] == q[0];
      if p[0] == 'r' {
        assert l[7] == p[7] == q[7];
      }
    }
  }

  lemma ThreeQualifiers()
    ensures forall p :: p in PREFIXES <==> p == "registry " || p == "registrar " || p == "domain "
  {
  }

  lemma {:induction false} ByQualifier(synonyms: map<string, string>, l: string, prefixes: seq<string>)
    ensures var key := Unqualified(synonyms, l, prefixes);
            || (exists p :: p in prefixes && StartsWith(l, p) && l[|p|..] in synonyms && key == synonyms[l[|p|..]])
            || (key == "" && forall p :: p in prefixes && StartsWith(l, p) ==> l[|p|..] !in synonyms)
  {
    if prefixes != [] {
      ByQualifier(synonyms, l, prefixes[1..]);
    }
  }

  // ---- blocks

  /** A line belongs to a block exactly if it is indented by a space or a tab, has
      something on it, has no colon and is no comment; its value is what is left
      of it trimmed. */
  lemma {:induction false} MemberLine(a: string, v: string, b: string)
    requires AllSpace(a) && AllSpace(b) && Trimmed(v) && (forall c :: c in a ==> c != '\r')
    ensures IsMember(a + v + b) <==>
              v != "" && a != "" && a[0] in {' ', '\t'} && ':' !in v && !("%" <= v) && !("#" <= v)
    ensures MemberValue(a + v + b) == v
  {
    hide TrimSpace, TrimCR, AllSpace, IsSpace;
    var line := a + v + b;
    TrimCRFirst(line);
    TrimSpaceIs(a, v, b);
    var d := TrimCRSplits(line);
    var raw := TrimCR(line);
    if v != "" {
      NotTrimmedAway(a, v, b, raw, d);
      assert a != "" ==> line[0] == a[0];
      assert a == "" ==> line[0] == v[0];
      VisibleStart(v);
    }
  }

  lemma VisibleStart(v: string)
    requires v != "" && Trimmed(v)
    ensures v[0] != ' ' && v[0] != '\t'
  {
  }

  lemma NotTrimmedAway(a: string, v: string, b: string, raw: string, d: string)
    requires v != "" && Trimmed(v) && a + v + b == raw + d && forall c :: c in d ==> c == '\r'
    ensures raw != "" && raw[0] == (a + v + b)[0]
  {
    var line := a + v + b;
    assert line[|a|] == v[0] && v[0] != '\r';
    assert line[|a|] in line;
    assert raw == "" ==> raw + d == d;
    assert v[0] !in d;
  }

  // ---- a response written from labels and values is read back

  datatype Entry = Entry(name: string, value: string, cr: bool)

  /** A label the tables know and a value, both fit to be written on a line. */
  ghost predicate Writable(tables: Tables, e: Entry) {
    && Trimmed(e.name) && e.name != "" && ':' !in e.name && '\n' !in e.name && !("[" <= e.name)
    && !IsComment(e.name) && !IsSentence(e.name) && Canonical(tables, e.name) != ""
    && Trimmed(e.value) && e.value != "" && '\n' !in e.value
  }

  function LineOf(e: Entry): string {
    e.name + ":" + (" " + e.value + if e.cr then "\r" else "")
  }

  function LinesOf(es: seq<Entry>): seq<string> {
    seq(|es|, i requires 0 <= i < |es| => LineOf(es[i]))
  }

  function Written(es: seq<Entry>): string
    requires es != []
  {
    Join(LinesOf(es), '\n')
  }

  function FieldsOf(tables: Tables, es: seq<Entry>): seq<(string, string)> {
    seq(|es|, i requires 0 <= i < |es| => (Canonical(tables, es[i].name), es[i].value))
  }

  lemma {:induction false} LineIsField(tables: Tables, e: Entry)
    requires Writable(tables, e)
    ensures RoleOf(tables, LineOf(e)) == Field(Canonical(tables, e.name), e.value)
    ensures '\n' !in LineOf(e)
  {
    hide TrimSpace, SplitLine, Canonical, IsSpace;
    var rest := " " + e.value + if e.cr then "\r" else "";
    ColonIsVisible();
    var b, tail := TrimmedAround(e.name, ':', rest);
    TrimSpaceIs("", e.name, "");
    assert "" + e.name + "" == e.name;
    Ends(e.cr);
    TrimSpaceIs(" ", e.value, if e.cr then "\r" else "");
    StartsUnbracketed(e, b, tail);
    LabelAndValue(e.name, rest);
  }

  lemma ColonIsVisible()
    ensures !IsSpace(':')
  {
  }

  lemma Ends(cr: bool)
    ensures AllSpace(" ") && AllSpace(if cr then "\r" else "")
  {
  }

  lemma StartsUnbracketed(e: Entry, b: string, tail: string)
    requires e.name != "" && !("[" <= e.name)
    ensures !IsBracketed(e.name + b + ":" + tail)
  {
    assert (e.name + b + ":" + tail)[0] == e.name[0];
  }

  lemma {:induction false} AllFields(tables: Tables, es: seq<Entry>)
    requires forall e :: e in es ==> Writable(tables, e)
    ensures Roles(tables, LinesOf(es)) ==
            seq(|es|, i requires 0 <= i < |es| => Field(Canonical(tables, es[i].name), es[i].value))
  {
    hide RoleOf, Canonical, Writable, LineOf, BlockLength, Members;
    if es != [] {
      LineIsField(tables, es[0]);
      AllFields(tables, es[1..]);
      assert LinesOf(es)[1..] == LinesOf(es[1..]);
    }
  }

  lemma {:induction false} AllRecorded(tables: Tables, es: seq<Entry>)
    ensures var roles := seq(|es|, i requires 0 <= i < |es| => Field(Canonical(tables, es[i].name), es[i].value));
            Recorded(roles) == FieldsOf(tables, es) && UnknownLabels(roles) == []
  {
    hide Canonical;
    if es != [] {
      var front := es[..|es| - 1];
      AllRecorded(tables, front);
      var roles := seq(|es|, i requires 0 <= i < |es| => Field(Canonical(tables, es[i].name), es[i].value));
      assert roles[..|es| - 1] ==
             seq(|front|, i requires 0 <= i < |front| => Field(Canonical(tables, front[i].name), front[i].value));
    }
  }

  /** What is written from known labels and values is recorded, all of it and in
      order, and no label counts as unknown; line ends may have carriage returns. */
  lemma {:induction false} WrittenIsRead(tables: Tables, es: seq<Entry>)
    requires es != [] && forall e :: e in es ==> Writable(tables, e)
    ensures var roles := Roles(tables, Split(Written(es), '\n'));
            Recorded(roles) == FieldsOf(tables, es) && UnknownLabels(roles) == []
  {
    hide Writable, LineOf, Roles, Recorded, UnknownLabels, Split, Join, Canonical;
    forall p | p in LinesOf(es)
      ensures '\n' !in p
    {
      var i :| 0 <= i < |es| && p == LineOf(es[i]);
      LineIsField(tables, es[i]);
    }
    JoinSplits(LinesOf(es), '\n');
    AllFields(tables, es);
    AllRecorded(tables, es);
  }

  /** So a field given by one label only holds exactly the value written under it,
      and a field under no label is not there. */
  lemma {:induction false} WrittenFields(tables: Tables, es: seq<Entry>, fields: Fields, i: nat, key: string)
    requires es != [] && (forall e :: e in es ==> Writable(tables, e)) && i < |es|
    requires forall k :: Reads(fields, Recorded(Roles(tables, Split(Written(es), '\n'))), k)
    ensures (forall j :: 0 <= j < |es| && j != i ==> Canonical(tables, es[j].name) != Canonical(tables, es[i].name)) ==>
              var k := Canonical(tables, es[i].name); k in fields && fields[k] == [es[i].value]
    ensures (forall e :: e in es ==> Canonical(tables, e.name) != key) ==> key !in fields
  {
    hide Writable, Roles, Recorded, Split, Written, Canonical, Reads;
    WrittenIsRead(tables, es);
    var recorded, k := FieldsOf(tables, es), Canonical(tables, es[i].name);
    ReadsAs(fields, recorded, k);
    ReadsAs(fields, recorded, key);
    if forall j :: 0 <= j < |es| && j != i ==> Canonical(tables, es[j].name) != k {
      ValueOf(tables, es, i);
      GivenOnce(recorded, k, i);
    }
    if forall e :: e in es ==> Canonical(tables, e.name) != key {
      GivenNever(recorded, key);
    }
  }

  lemma ValueOf(tables: Tables, es: seq<Entry>, i: nat)
    requires i < |es| && Writable(tables, es[i])
    ensures es[i].value != ""
  {
  }

  lemma ReadsAs(fields: Fields, recorded: seq<(string, string)>, key: string)
    requires Reads(fields, recorded, key)
    ensures key in fields <==> Given(recorded, key) != []
    ensures |Given(recorded, key)| == 1 ==> fields[key] == Given(recorded, key)
  {
    var given := Given(recorded, key);
    if |given| == 1 {
      assert given == [given[0]];
      assert FirstOccurrences(given[..0]) == [] && FirstOccurrences(given) == given;
    }
  }

  lemma {:induction false} GivenOnce(recorded: seq<(string, string)>, key: string, i: nat)
    requires i < |recorded| && recorded[i].0 == key && recorded[i].1 != ""
    requires forall j :: 0 <= j < |recorded| && j != i ==> recorded[j].0 != key
    ensures Given(recorded, key) == [recorded[i].1]
  {
    if i == |recorded| - 1 {
      GivenNever(recorded[..i], key);
    } else {
      GivenOnce(recorded[..|recorded| - 1], key, i);
    }
  }

  lemma {:induction false} GivenNever(recorded: seq<(string, string)>, key: string)
    requires forall j :: 0 <= j < |recorded| ==> recorded[j].0 != key
    ensures Given(recorded, key) == []
  {
    if recorded != [] {
      GivenNever(recorded[..|recorded| - 1], key);
    }
  }

  /** A bare label with its values on indented lines under it gives the field all of
      them, up to twenty; what stands on the twenty-first line is read on its own. */
  lemma {:induction false} BlockIsRead(tables: Tables, name: string, vs: seq<string>, rest: seq<string>)
    requires Writable(tables, Entry(name, "v", false)) && |vs| <= 20
    requires forall v :: v in vs ==> v != "" && Trimmed(v) && ':' !in v && !("%" <= v) && !("#" <= v)
    requires |vs| == 20 || rest == [] || !IsMember(rest[0])
    ensures var key := Canonical(tables, name);
            Roles(tables, [name + ":"] + Indented(vs) + rest) ==
            [BlockLabel(key)] + seq(|vs|, i requires 0 <= i < |vs| => BlockMember(key, vs[i])) + Roles(tables, rest)
  {
    hide RoleOf, IsMember, MemberValue, Canonical, BlockLength, Members, Writable;
    var lines, key := [name + ":"] + Indented(vs) + rest, Canonical(tables, name);
    BareLabel(tables, name);
    assert lines[0] == name + ":" && lines[1..] == Indented(vs) + rest;
    forall i | 0 <= i < |vs|
      ensures IsMember(lines[1..][i]) && MemberValue(lines[1..][i]) == vs[i]
    {
      assert vs[i] in vs;
      IndentedIs(vs[i]);
    }
    BlockLengthIs(lines[1..], MAX_BLOCK, |vs|);
    assert lines[1..][..|vs|] == Indented(vs) && lines[1..][|vs|..] == rest;
    MembersAre(key, Indented(vs));
    assert Members(key, Indented(vs)) == seq(|vs|, i requires 0 <= i < |vs| => BlockMember(key, vs[i]));
  }

  function Indented(vs: seq<string>): seq<string> {
    seq(|vs|, i requires 0 <= i < |vs| => "  " + vs[i])
  }

  lemma IndentedIs(v: string)
    requires v != "" && Trimmed(v) && ':' !in v && !("%" <= v) && !("#" <= v)
    ensures IsMember("  " + v) && MemberValue("  " + v) == v
  {
    MemberLine("  ", v, "");
    assert "  " + v + "" == "  " + v;
  }

  lemma {:induction false} BareLabel(tables: Tables, name: string)
    requires Writable(tables, Entry(name, "v", false))
    ensures RoleOf(tables, name + ":") == BlockLabel(Canonical(tables, name))
  {
    hide TrimSpace, SplitLine, Canonical, IsSpace;
    ColonIsVisible();
    var b, tail := TrimmedAround(name, ':', "");
    TrimSpaceIs("", name, "");
    TrimSpaceIs("", "", "");
    assert "" + name + "" == name && "" + "" + "" == "" && name + ":" + "" == name + ":";
    StartsUnbracketed(Entry(name, "v", false), b, tail);
    LabelAndValue(name, "");
  }

  // ---- prose

  /** A label looks like prose exactly if it has five spaces or more, or holds one of
      the words anywhere, in any case. */
  lemma {:induction false} ProseExactly(name: string)
    ensures IsProse(name) <==>
              SpacesIn(name) >= 5 || exists w, i :: w in PROSE && 0 <= i <= |name| && w <= Lower(name)[i..]
  {
    hide Lower;
    SpacesKept(name);
    LowerIs(name);
    forall w
      ensures Contains(Lower(name), w) <==> exists i :: 0 <= i <= |name| && w <= Lower(name)[i..]
    {
      ContainsExactly(Lower(name), w);
    }
  }

  function SpacesIn(s: string): nat {
    |set i | 0 <= i < |s| && s[i] == ' '|
  }

  lemma {:induction false} SpacesCounted(s: string)
    ensures CountSpaces(s) == SpacesIn(s)
  {
    if s != "" {
      var n := |s| - 1;
      SpacesCounted(s[..n]);
      var before, all := set i | 0 <= i < |s[..n]| && s[..n][i] == ' ', set i | 0 <= i < |s| && s[i] == ' ';
      assert all == before + if s[n] == ' ' then {n} else {};
    }
  }

  lemma {:induction false} SpacesKept(s: string)
    ensures CountSpaces(Lower(s)) == SpacesIn(s)
  {
    SpacesCounted(Lower(s));
    assert (set i | 0 <= i < |Lower(s)| && Lower(s)[i] == ' ') == (set i | 0 <= i < |s| && s[i] == ' ');
  }

  lemma {:induction false} ContainsExactly(s: string, w: string)
    ensures Contains(s, w) <==> exists i :: 0 <= i <= |s| && w <= s[i..]
  {
    if s != "" {
      ContainsExactly(s[1..], w);
      if i :| 0 <= i <= |s| && w <= s[i..] && i > 0 {
        assert s[1..][i - 1..] == s[i..];
      }
      if j :| 0 <= j <= |s[1..]| && w <= s[1..][j..] {
        assert s[j + 1..] == s[1..][j..];
      }
      assert s[0..] == s;
    } else {
      assert s[0..] == s;
    }
  }
}
