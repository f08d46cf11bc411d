/** Reading a WHOIS response into fields: `internal/whois/parsers/parse.go`. The
    synonym table and the host templates are parameters. Confidence is computed
    over the reals. */
module WhoisParse {
  import opened Base
  import opened Text

  const MULTI_VALUED: set<string> := {"nameserver", "status"}
  const CORE_FIELDS := ["domain", "registrar", "status", "nameserver", "created", "expires"]
  const MAX_BLOCK := 20

  /** Lowercased labels to canonical fields: the host's template, if it has one,
      and the synonyms every host shares. */
  datatype Tables = Tables(template: Option<map<string, string>>, synonyms: map<string, string>)

  type Fields = map<string, seq<string>>

  // ---- one line

  predicate StartsWith(s: string, prefix: string) {
    prefix <= s
  }

  predicate Contains(s: string, word: string) {
    word <= s || (s != "" && Contains(s[1..], word))
  }

  function CountSpaces(s: string): nat {
    if s == "" then 0 else CountSpaces(s[..|s| - 1]) + (if s[|s| - 1] == ' ' then 1 else 0)
  }

  function SplitLine(line: string): Option<(string, string)> {
    var t := TrimSpace(TrimCR(line));
    if t == "" || StartsWith(t, "%") || StartsWith(t, "#") || StartsWith(t, ">>>") || StartsWith(t, "--") then None
    else
      var close := IndexOf(t, ']');
      if t[0] == '[' && close < |t| then Some((t[..close + 1], TrimSpace(t[close + 1..])))
      else
        var i := IndexOf(t, ':');
        if i == 0 || i == |t| then None
        else
          var name := TrimSpace(t[..i]);
          if (ContainsAny(name, ".!?") && !StartsWith(name, "[")) || |name| > 60 then None
          else Some((name, TrimSpace(t[i + 1..])))
  }

  const PREFIXES := ["registry ", "registrar ", "domain "]

  /** The template first, then the synonyms, then the synonyms without one of the
      qualifiers registries put in front. "" is no field. */
  function Canonical(tables: Tables, name: string): string {
    var l := Lower(TrimSpace(name));
    if tables.template.Some? && l in tables.template.value then tables.template.value[l]
    else if l in tables.synonyms then tables.synonyms[l]
    else Unqualified(tables.synonyms, l, PREFIXES)
  }

  function Unqualified(synonyms: map<string, string>, l: string, prefixes: seq<string>): string {
    if prefixes == [] then ""
    else if StartsWith(l, prefixes[0]) && l[|prefixes[0]|..] in synonyms then synonyms[l[|prefixes[0]|..]]
    else Unqualified(synonyms, l, prefixes[1..])
  }

  const PROSE := ["notice", "terms of use", "by submitting", "important", "disclaimer", "copyright", "http",
                  "https", "www", "for more information", "the data in", "this data is provided", "note", "warning"]

  predicate IsProse(name: string) {
    CountSpaces(Lower(name)) >= 5 || exists w :: w in PROSE && Contains(Lower(name), w)
  }

  /** A line that can belong to the indented block under a bare label. */
  predicate IsMember(line: string) {
    var raw := TrimCR(line);
    var t := TrimSpace(raw);
    && t != "" && (StartsWith(raw, " ") || StartsWith(raw, "\t"))
    && ':' !in t && !StartsWith(t, "%") && !StartsWith(t, "#")
  }

  function MemberValue(line: string): string {
    TrimSpace(TrimCR(line))
  }

  // ---- a recursive reading of the whole response

  /** What becomes of one line. */
  datatype Role =
    | Field(key: string, value: string)
    | BlockLabel(key: string)
    | BlockMember(key: string, value: string)
    | UnknownLabel(name: string)
    | Ignored

  /** What a line is on its own. */
  function RoleOf(tables: Tables, line: string): Role {
    match SplitLine(line)
    case None => Ignored
    case Some((name, value)) =>
      var key := Canonical(tables, name);
      if key == "" then (if IsProse(name) then Ignored else UnknownLabel(name))
      else if value == "" then BlockLabel(key)
      else Field(key, value)
  }

  /** How many of the lines, at most `limit`, are members in a row. */
  function BlockLength(lines: seq<string>, limit: nat): (n: nat)
    ensures n <= |lines| && n <= limit
    ensures forall i :: 0 <= i < n ==> IsMember(lines[i])
    ensures n < |lines| && n < limit ==> !IsMember(lines[n])
  {
    if lines == [] || limit == 0 || !IsMember(lines[0]) then 0 else 1 + BlockLength(lines[1..], limit - 1)
  }

  function Members(key: string, lines: seq<string>): seq<Role> {
    seq(|lines|, i requires 0 <= i < |lines| => BlockMember(key, MemberValue(lines[i])))
  }

  /** The roles of all lines: a bare label takes the block under it along. */
  function Roles(tables: Tables, lines: seq<string>): (roles: seq<Role>)
    ensures |roles| == |lines|
    decreases |lines|
  {
    if lines == [] then []
    else
      var role := RoleOf(tables, lines[0]);
      if role.BlockLabel? then
        var n := BlockLength(lines[1..], MAX_BLOCK);
        [role] + Members(role.key, lines[1..][..n]) + Roles(tables, lines[1..][n..])
      else [role] + Roles(tables, lines[1..])
  }

  /** Each line has exactly one role: what it is on its own, or a member of the
      block whose label stands above it with only members in between. */
  ghost predicate RoleFits(tables: Tables, lines: seq<string>, roles: seq<Role>, i: nat)
    requires |roles| == |lines| && i < |lines|
  {
    if roles[i].BlockMember? then
      && IsMember(lines[i]) && roles[i].value == MemberValue(lines[i])
      && i > 0 && (roles[i - 1] == BlockLabel(roles[i].key)
                   || (roles[i - 1].BlockMember? && roles[i - 1].key == roles[i].key))
    else roles[i] == RoleOf(tables, lines[i])
  }

  lemma {:induction false} EveryLineOnce(tables: Tables, lines: seq<string>)
    ensures forall i: nat :: i < |lines| ==> RoleFits(tables, lines, Roles(tables, lines), i)
    decreases |lines|
  {
    hide RoleOf, IsMember, MemberValue, BlockLength, Members;
    if lines != [] {
      var roles, role := Roles(tables, lines), RoleOf(tables, lines[0]);
      var n := if role.BlockLabel? then BlockLength(lines[1..], MAX_BLOCK) else 0;
      var rest := lines[1..][n..];
      EveryLineOnce(tables, rest);
      var members := if role.BlockLabel? then Members(role.key, lines[1..][..n]) else [];
      if role.BlockLabel? {
        MembersAre(role.key, lines[1..][..n]);
      }
      assert roles == [role] + members + Roles(tables, rest);
      assert role == RoleOf(tables, lines[0]) && !role.BlockMember? by { RoleIsNoMember(tables, lines[0]); }
      forall i: nat | i < |lines|
        ensures RoleFits(tables, lines, roles, i)
      {
        if i > n {
          var k := i - n - 1;
          assert RoleFits(tables, rest, Roles(tables, rest), k);
          assert roles[i] == Roles(tables, rest)[k] && lines[i] == rest[k];
          assert k > 0 ==> roles[i - 1] == Roles(tables, rest)[k - 1];
        } else if i > 0 {
          assert roles[i] == members[i - 1];
        }
      }
    }
  }

  lemma MembersAre(key: string, lines: seq<string>)
    ensures |Members(key, lines)| == |lines|
    ensures forall i :: 0 <= i < |lines| ==> Members(key, lines)[i] == BlockMember(key, MemberValue(lines[i]))
  {
    hide MemberValue;
  }

  lemma RoleIsNoMember(tables: Tables, line: string)
    ensures !RoleOf(tables, line).BlockMember?
  {
  }

  // ---- the field map

  /** The (field, value) pairs in the order they are recorded. */
  function Recorded(roles: seq<Role>): seq<(string, string)> {
    if roles == [] then []
    else
      var last := roles[|roles| - 1];
      Recorded(roles[..|roles| - 1])
      + (if last.Field? || last.BlockMember? then [(last.key, last.value)] else [])
  }

  function UnknownLabels(roles: seq<Role>): seq<string> {
    if roles == [] then []
    else
      var last := roles[|roles| - 1];
      UnknownLabels(roles[..|roles| - 1]) + (if last.UnknownLabel? then [last.name] else [])
  }

  function AppendUnique(dst: seq<string>, v: string): seq<string> {
    if exists i :: 0 <= i < |dst| && EqualFold(dst[i], v) then dst else dst + [v]
  }

  function RecordSpec(fields: Fields, key: string, value: string): Fields {
    if value == "" then fields
    else if key in MULTI_VALUED then fields[key := AppendUnique(Values(fields, key), value)]
    else if key in fields then fields
    else fields[key := [value]]
  }

  function Values(fields: Fields, key: string): seq<string> {
    if key in fields then fields[key] else []
  }

  function Store(recorded: seq<(string, string)>): Fields {
    if recorded == [] then map[]
    else
      var (key, value) := recorded[|recorded| - 1];
      RecordSpec(Store(recorded[..|recorded| - 1]), key, value)
  }

  /** The non-empty values recorded for a field, in order. */
  function Given(recorded: seq<(string, string)>, key: string): seq<string> {
    if recorded == [] then []
    else
      var (k, v) := recorded[|recorded| - 1];
      Given(recorded[..|recorded| - 1], key) + (if k == key && v != "" then [v] else [])
  }

  /** The values with no earlier one equal to them up to case. */
  function FirstOccurrences(vs: seq<string>): seq<string> {
    if vs == [] then []
    else
      var front, last := vs[..|vs| - 1], vs[|vs| - 1];
      FirstOccurrences(front) + (if exists i :: 0 <= i < |front| && EqualFold(front[i], last) then [] else [last])
  }

  /** Leaving out repetitions loses no value up to case and keeps no two alike. */
  lemma {:induction false} FirstOccurrencesCover(vs: seq<string>)
    ensures forall v :: v in FirstOccurrences(vs) ==> v in vs
    ensures forall v :: v in vs ==> exists i :: 0 <= i < |FirstOccurrences(vs)| && EqualFold(FirstOccurrences(vs)[i], v)
    ensures forall i, j :: 0 <= i < j < |FirstOccurrences(vs)| ==>
              !EqualFold(FirstOccurrences(vs)[i], FirstOccurrences(vs)[j])
  {
    hide Lower;
    if vs != [] {
      var front, last := vs[..|vs| - 1], vs[|vs| - 1];
      FirstOccurrencesCover(front);
      var before, now := FirstOccurrences(front), FirstOccurrences(vs);
      forall v | v in vs
        ensures exists i :: 0 <= i < |now| && EqualFold(now[i], v)
      {
        if v in front {
          var i :| 0 <= i < |before| && EqualFold(before[i], v);
          assert EqualFold(now[i], v);
        } else if now == before {
          var j :| 0 <= j < |front| && EqualFold(front[j], last);
          assert front[j] in front;
          var i :| 0 <= i < |before| && EqualFold(before[i], front[j]);
          assert EqualFold(now[i], v);
        } else {
          assert EqualFold(now[|before|], v);
        }
      }
      forall i, j | 0 <= i < j < |now|
        ensures !EqualFold(now[i], now[j])
      {
        if j == |before| {
          assert before[i] in front;
          var k :| 0 <= k < |front| && front[k] == before[i];
          assert !EqualFold(front[k], last);
        }
      }
    }
  }

  /** What the map holds for a field: nothing if no value was given, the first
      value of a single-valued field, the first occurrences of a multi-valued one. */
  ghost predicate Reads(fields: Fields, recorded: seq<(string, string)>, key: string) {
    var given := Given(recorded, key);
    && (key in fields <==> given != [])
    && (given != [] ==> fields[key] == if key in MULTI_VALUED then FirstOccurrences(given) else [given[0]])
  }

  lemma {:induction false} FieldReading(recorded: seq<(string, string)>, key: string)
    ensures Reads(Store(recorded), recorded, key)
  {
    hide RecordSpec, AppendUnique;
    if recorded != [] {
      var front := recorded[..|recorded| - 1];
      var (k, v) := recorded[|recorded| - 1];
      FieldReading(front, key);
      RecordStep(Store(front), k, v, key);
      var given := Given(front, key);
      if k == key && v != "" {
        FirstOccurrencesSnoc(given, v);
        assert Given(recorded, key) == given + [v];
      } else {
        assert Given(recorded, key) == given + [] == given;
      }
      assert given == [] ==> FirstOccurrences(given) == [];
    }
  }

  lemma RecordStep(fields: Fields, k: string, v: string, key: string)
    ensures var fields' := RecordSpec(fields, k, v);
            if k != key || v == "" then
              (key in fields' <==> key in fields) && Values(fields', key) == Values(fields, key)
            else
              key in fields'
              && fields'[key] == if key in MULTI_VALUED then AppendUnique(Values(fields, key), v)
                                 else if key in fields then fields[key] else [v]
  {
  }

  lemma FirstOccurrencesSnoc(vs: seq<string>, v: string)
    ensures FirstOccurrences(vs + [v]) == AppendUnique(FirstOccurrences(vs), v)
  {
    assert (vs + [v])[..|vs|] == vs;
    Repeats(vs, v);
  }

  /** Looking for a repetition among the values kept finds one exactly when there
      is one among all values so far. */
  lemma Repeats(vs: seq<string>, v: string)
    ensures (exists i :: 0 <= i < |FirstOccurrences(vs)| && EqualFold(FirstOccurrences(vs)[i], v))
            <==> (exists i :: 0 <= i < |vs| && EqualFold(vs[i], v))
  {
    hide Lower;
    FirstOccurrencesCover(vs);
    var kept := FirstOccurrences(vs);
    if i :| 0 <= i < |kept| && EqualFold(kept[i], v) {
      assert kept[i] in vs;
    }
    if j :| 0 <= j < |vs| && EqualFold(vs[j], v) {
      assert vs[j] in vs;
    }
  }

  // ---- confidence

  /** How many core fields were recovered. */
  function Found(fields: Fields, core: seq<string>): nat {
    if core == [] then 0
    else Found(fields, core[..|core| - 1]) + (if |Values(fields, core[|core| - 1])| > 0 then 1 else 0)
  }

  lemma {:induction false} FoundBounds(fields: Fields, core: seq<string>)
    ensures Found(fields, core) <= |core|
    ensures Found(fields, core) == 0 <==> forall f :: f in core ==> Values(fields, f) == []
  {
    if core != [] {
      FoundBounds(fields, core[..|core| - 1]);
      assert core == core[..|core| - 1] + [core[|core| - 1]];
    }
  }

  function Round2(f: real): real {
    ((f * 100.0 + 0.5).Floor as real) / 100.0
  }

  function Clamp(f: real): real {
    if f < 0.05 then 0.05 else if f > 1.0 then 1.0 else f
  }

  function Penalty(unknown: nat): real {
    var p := unknown as real * 0.01;
    if p > 0.15 then 0.15 else p
  }

  function RawScore(found: nat, hasTemplate: bool): real {
    var share := found as real / 6.0;
    if hasTemplate then share * 0.9 + 0.1 else share * 0.85
  }

  function Score(found: nat, hasTemplate: bool, unknown: nat): real {
    if found == 0 then 0.0 else Round2(Clamp(RawScore(found, hasTemplate) - Penalty(unknown)))
  }

  /** Rounding moves a value by at most half a hundredth and keeps the order. */
  lemma Round2Near(f: real)
    ensures f - 0.005 < Round2(f) <= f + 0.005
  {
  }

  lemma Round2Monotone(f: real, g: real)
    requires f <= g
    ensures Round2(f) <= Round2(g)
  {
    FloorMonotone(f * 100.0 + 0.5, g * 100.0 + 0.5);
  }

  lemma IntsBelow(i: int, j: int)
    requires i as real < j as real
    ensures i + 1 <= j && i as real + 1.0 <= j as real
  {
  }

  lemma FloorMonotone(x: real, y: real)
    requires x <= y
    ensures x.Floor as real <= y.Floor as real
  {
    var i, j := x.Floor, y.Floor + 1;
    assert j as real == y.Floor as real + 1.0;
    assert i as real < j as real;
    IntsBelow(i, j);
  }

  /** The confidence is zero exactly when no core field was found; otherwise it is
      at least 0.05 and at most 1, and at most 0.85 without a template. */
  lemma {:induction false} ScoreRange(found: nat, hasTemplate: bool, unknown: nat)
    requires found <= |CORE_FIELDS|
    ensures Score(found, hasTemplate, unknown) == 0.0 <==> found == 0
    ensures found > 0 ==> 0.05 <= Score(found, hasTemplate, unknown) <= 1.0
    ensures !hasTemplate ==> Score(found, hasTemplate, unknown) <= 0.85
  {
    var f := Clamp(RawScore(found, hasTemplate) - Penalty(unknown));
    assert Round2(0.05) == 0.05 && Round2(0.85) == 0.85 && Round2(1.0) == 1.0;
    Round2Monotone(0.05, f);
    Round2Monotone(f, 1.0);
    if !hasTemplate {
      Round2Monotone(f, 0.85);
    }
  }

  /** For the same fields and unknown labels a template always scores higher. */
  lemma {:induction false} TemplateScoresHigher(found: nat, unknown: nat)
    requires 0 < found <= |CORE_FIELDS|
    ensures Score(found, false, unknown) < Score(found, true, unknown)
  {
    var plain := Clamp(RawScore(found, false) - Penalty(unknown));
    var known := Clamp(RawScore(found, true) - Penalty(unknown));
    assert plain + 0.02 <= known;
    Round2Near(plain);
    Round2Near(known);
  }

  /** The scores without unknown labels, by how many of the six fields were found. */
  lemma ScoreTable()
    ensures Score(1, true, 0) == 0.25 && Score(1, false, 0) == 0.14
    ensures Score(2, true, 0) == 0.40 && Score(2, false, 0) == 0.28
    ensures Score(3, true, 0) == 0.55 && Score(3, false, 0) == 0.43
    ensures Score(4, true, 0) == 0.70 && Score(4, false, 0) == 0.57
    ensures Score(5, true, 0) == 0.85 && Score(5, false, 0) == 0.71
    ensures Score(6, true, 0) == 1.00 && Score(6, false, 0) == 0.85
  {
    assert Round2(0.25) == 0.25;
  }

  /** Each unknown label costs a hundredth, fifteen at most, and never the last five. */
  lemma {:induction false} UnknownLabelsCost(found: nat, hasTemplate: bool, unknown: nat)
    requires 0 < found <= |CORE_FIELDS|
    ensures var cost := (if unknown < 15 then unknown else 15) as real / 100.0;
            var plain := Score(found, hasTemplate, 0);
            Score(found, hasTemplate, unknown) == if plain - cost < 0.05 then 0.05 else plain - cost
  {
    var raw := RawScore(found, hasTemplate);
    var n := if unknown < 15 then unknown else 15;
    assert Penalty(unknown) == n as real / 100.0;
    assert 0.05 <= raw <= 1.0;
    ShiftedRounding(raw, n);
    assert Round2(0.05) == 0.05;
    if raw - Penalty(unknown) < 0.05 {
      Round2Monotone(raw - Penalty(unknown), 0.05);
    } else {
      Round2Monotone(0.05, raw - Penalty(unknown));
    }
  }

  lemma ShiftedRounding(f: real, n: nat)
    ensures Round2(f - n as real / 100.0) == Round2(f) - n as real / 100.0
  {
    var x, y := f * 100.0 + 0.5, (f - n as real / 100.0) * 100.0 + 0.5;
    assert y == x - n as real;
    FloorShift(x, n);
  }

  lemma FloorShift(x: real, n: nat)
    ensures (x - n as real).Floor == x.Floor - n
  {
    var i, j := (x - n as real).Floor, x.Floor - n;
    assert (i as real) <= x - n as real < i as real + 1.0;
    assert j as real == x.Floor as real - n as real;
    OneFloor(i, j, x - n as real);
  }

  lemma OneFloor(i: int, j: int, x: real)
    requires i as real <= x < i as real + 1.0 && j as real <= x < j as real + 1.0
    ensures i == j
  {
    if i < j {
      IntsBelow(i, j);
    } else if j < i {
      IntsBelow(j, i);
    }
  }

  /** One unknown label more never raises the score. */
  lemma {:induction false} UnknownLabelsNeverHelp(found: nat, hasTemplate: bool, unknown: nat)
    ensures Score(found, hasTemplate, unknown + 1) <= Score(found, hasTemplate, unknown)
  {
    Round2Monotone(Clamp(RawScore(found, hasTemplate) - Penalty(unknown + 1)),
                   Clamp(RawScore(found, hasTemplate) - Penalty(unknown)));
  }

  // ---- the parser

  class Parsed {
    var fields: Fields
    var unknownLabels: seq<string>
    var confidence: real

    constructor ()
      ensures fields == map[] && unknownLabels == [] && confidence == 0.0
    {
      fields, unknownLabels, confidence := map[], [], 0.0;
    }

    method Record(key: string, value: string)
      modifies this`fields
      ensures fields == RecordSpec(old(fields), key, value)
    {
      if value == "" {
        return;
      }
      if key in MULTI_VALUED {
        var vs := AppendIfNew(Values(fields, key), value);
        fields := fields[key := vs];
        return;
      }
      if key !in fields {
        fields := fields[key := [value]];
      }
    }

    method ComputeScore(hasTemplate: bool) returns (score: real)
      ensures score == Score(Found(fields, CORE_FIELDS), hasTemplate, |unknownLabels|)
    {
      var found := 0;
      for i := 0 to |CORE_FIELDS|
        invariant found == Found(fields, CORE_FIELDS[..i])
      {
        assert CORE_FIELDS[..i + 1][..i] == CORE_FIELDS[..i];
        if |Values(fields, CORE_FIELDS[i])| > 0 {
          found := found + 1;
        }
      }
      assert CORE_FIELDS[..|CORE_FIELDS|] == CORE_FIELDS;
      if found == 0 {
        return 0.0;
      }
      var base := found as real / |CORE_FIELDS| as real;
      if hasTemplate {
        base := base * 0.9 + 0.1;
      } else {
        base := base * 0.85;
      }
      if |unknownLabels| > 0 {
        var penalty := |unknownLabels| as real * 0.01;
        if penalty > 0.15 {
          penalty := 0.15;
        }
        base := base - penalty;
      }
      if base < 0.05 {
        base := 0.05;
      }
      if base > 1.0 {
        base := 1.0;
      }
      return Round2(base);
    }
  }

  method AppendIfNew(dst: seq<string>, v: string) returns (r: seq<string>)
    ensures r == AppendUnique(dst, v)
  {
    for i := 0 to |dst|
      invariant forall k :: 0 <= k < i ==> !EqualFold(dst[k], v)
    {
      if EqualFold(dst[i], v) {
        return dst;
      }
    }
    return dst + [v];
  }

  /** The trimmed members of the block that starts the lines. */
  method ContinuationValues(lines: seq<string>) returns (vals: seq<string>)
    ensures |vals| == BlockLength(lines, MAX_BLOCK)
    ensures forall i :: 0 <= i < |vals| ==> vals[i] == MemberValue(lines[i])
  {
    vals := [];
    for i := 0 to |lines|
      invariant |vals| == i < MAX_BLOCK
      invariant forall k :: 0 <= k < i ==> IsMember(lines[k]) && vals[k] == MemberValue(lines[k])
    {
      var raw := TrimCR(lines[i]);
      var trimmed := TrimSpace(raw);
      if trimmed == "" {
        break;
      }
      if !StartsWith(raw, " ") && !StartsWith(raw, "\t") {
        break;
      }
      if ':' in trimmed || StartsWith(trimmed, "%") || StartsWith(trimmed, "#") {
        break;
      }
      vals := vals + [trimmed];
      if |vals| >= MAX_BLOCK {
        break;
      }
    }
    BlockLengthIs(lines, MAX_BLOCK, |vals|);
  }

  lemma {:induction false} BlockLengthIs(lines: seq<string>, limit: nat, n: nat)
    requires n <= |lines| && n <= limit
    requires forall i :: 0 <= i < n ==> IsMember(lines[i])
    requires n < |lines| && n < limit ==> !IsMember(lines[n])
    ensures BlockLength(lines, limit) == n
  {
    hide IsMember;
    if n > 0 {
      BlockLengthIs(lines[1..], limit - 1, n - 1);
    }
  }

  /** What one more line adds to the record. */
  lemma OneMore(roles: seq<Role>, r: Role)
    ensures UnknownLabels(roles + [r]) == UnknownLabels(roles) + (if r.UnknownLabel? then [r.name] else [])
    ensures Store(Recorded(roles + [r])) ==
            if r.Field? || r.BlockMember? then RecordSpec(Store(Recorded(roles)), r.key, r.value)
            else Store(Recorded(roles))
  {
    assert (roles + [r])[..|roles|] == roles;
    var before := Recorded(roles);
    if r.Field? || r.BlockMember? {
      assert Recorded(roles + [r]) == before + [(r.key, r.value)];
      assert (before + [(r.key, r.value)])[..|before|] == before;
    } else {
      assert Recorded(roles + [r]) == before + [];
      assert before + [] == before;
    }
  }

  /** The loop over a block's values. */
  method RecordBlock(p: Parsed, key: string, vals: seq<string>, ghost lines: seq<string>, ghost roles: seq<Role>)
    requires |lines| == |vals| && forall i :: 0 <= i < |vals| ==> vals[i] == MemberValue(lines[i])
    requires p.fields == Store(Recorded(roles))
    modifies p`fields
    ensures p.fields == Store(Recorded(roles + Members(key, lines)))
    ensures UnknownLabels(roles + Members(key, lines)) == UnknownLabels(roles)
  {
    hide MemberValue, RecordSpec, Store, Recorded, UnknownLabels;
    assert roles + Members(key, lines[..0]) == roles;
    for k := 0 to |vals|
      invariant p.fields == Store(Recorded(roles + Members(key, lines[..k])))
      invariant UnknownLabels(roles + Members(key, lines[..k])) == UnknownLabels(roles)
    {
      OneMore(roles + Members(key, lines[..k]), BlockMember(key, vals[k]));
      assert roles + Members(key, lines[..k + 1]) == roles + Members(key, lines[..k]) + [BlockMember(key, vals[k])];
      p.Record(key, vals[k]);
      assert UnknownLabels(roles) + [] == UnknownLabels(roles);
    }
    assert lines[..|vals|] == lines;
  }

  lemma RolesFromPlain(tables: Tables, lines: seq<string>, i: nat)
    requires i < |lines| && !RoleOf(tables, lines[i]).BlockLabel?
    ensures Roles(tables, lines[i..]) == [RoleOf(tables, lines[i])] + Roles(tables, lines[i + 1..])
  {
    hide RoleOf, BlockLength, Members;
    assert lines[i..][1..] == lines[i + 1..];
  }

  lemma RolesFromBlock(tables: Tables, lines: seq<string>, i: nat, n: nat)
    requires i < |lines| && RoleOf(tables, lines[i]).BlockLabel?
    requires n == BlockLength(lines[i + 1..], MAX_BLOCK)
    ensures var role := RoleOf(tables, lines[i]);
            Roles(tables, lines[i..]) ==
            [role] + Members(role.key, lines[i + 1..][..n]) + Roles(tables, lines[i + 1 + n..])
  {
    hide RoleOf, BlockLength, Members;
    assert lines[i..][1..] == lines[i + 1..];
    assert lines[i + 1..][n..] == lines[i + 1 + n..];
  }

  /** One turn of the loop: reads line i and returns the index of the next line to
      read, with the roles of the lines in between. */
  method ReadLine(p: Parsed, tables: Tables, lines: seq<string>, i: nat, ghost roles: seq<Role>)
    returns (next: nat, ghost more: seq<Role>)
    requires i < |lines| && p.fields == Store(Recorded(roles)) && p.unknownLabels == UnknownLabels(roles)
    modifies p
    ensures i < next <= |lines|
    ensures Roles(tables, lines[i..]) == more + Roles(tables, lines[next..])
    ensures p.fields == Store(Recorded(roles + more)) && p.unknownLabels == UnknownLabels(roles + more)
  {
    hide Store, Recorded, UnknownLabels, RecordSpec, Roles, Members, IsProse, SplitLine, Canonical, MemberValue;
    ghost var role := RoleOf(tables, lines[i]);
    more := [role];
    next := i + 1;
    OneMore(roles, role);
    var f := SplitLine(lines[i]);
    if f.None? {
      RolesFromPlain(tables, lines, i);
      return;
    }
    var (name, value) := f.value;
    var key := Canonical(tables, name);
    if key == "" {
      RolesFromPlain(tables, lines, i);
      if !IsProse(name) {
        p.unknownLabels := p.unknownLabels + [name];
      }
      return;
    }
    if value != "" {
      RolesFromPlain(tables, lines, i);
      p.Record(key, value);
      return;
    }
    var vals := ContinuationValues(lines[i + 1..]);
    RolesFromBlock(tables, lines, i, |vals|);
    ghost var block := lines[i + 1..][..|vals|];
    RecordBlock(p, key, vals, block, roles + [role]);
    more := [role] + Members(key, block);
    Regroup(roles, [role], Members(key, block));
    next := i + 1 + |vals|;
  }

  lemma Regroup(a: seq<Role>, b: seq<Role>, c: seq<Role>)
    ensures a + (b + c) == a + b + c
  {
  }

  lemma NothingYet(tables: Tables, lines: seq<string>)
    ensures Store(Recorded([])) == map[] && UnknownLabels([]) == []
    ensures Roles(tables, lines) == [] + Roles(tables, lines[0..])
    ensures forall roles: seq<Role> :: roles + Roles(tables, lines[|lines|..]) == roles
  {
    assert lines[0..] == lines;
  }

  /** The index loop with its skips is the recursive reading of the lines: every
      field holds what was given for it, the unknown labels are those of the
      reading, and the confidence is scored on both. It is zero exactly when no
      core field was found. An empty response yields nothing. */
  method Parse(tables: Tables, raw: string) returns (p: Parsed)
    ensures fresh(p)
    ensures raw == "" ==> p.fields == map[] && p.unknownLabels == [] && p.confidence == 0.0
    ensures raw != "" ==>
              var roles := Roles(tables, Split(raw, '\n'));
              && (forall key :: Reads(p.fields, Recorded(roles), key))
              && p.unknownLabels == UnknownLabels(roles)
              && p.confidence == Score(Found(p.fields, CORE_FIELDS), tables.template.Some?, |p.unknownLabels|)
    ensures p.confidence == 0.0 <==> forall f :: f in CORE_FIELDS ==> Values(p.fields, f) == []
  {
    p := new Parsed();
    if |raw| == 0 {
      return;
    }
    hide Store, Recorded, UnknownLabels, Roles, Split, RecordSpec, Reads, Found, Score;
    var lines := Split(raw, '\n');
    ghost var roles: seq<Role> := [];
    var i := 0;
    NothingYet(tables, lines);
    while i < |lines|
      invariant i <= |lines|
      invariant Roles(tables, lines) == roles + Roles(tables, lines[i..])
      invariant p.fields == Store(Recorded(roles)) && p.unknownLabels == UnknownLabels(roles)
    {
      ghost var more;
      i, more := ReadLine(p, tables, lines, i, roles);
      Regroup(roles, more, Roles(tables, lines[i..]));
      roles := roles + more;
    }
    NothingYet(tables, lines);
    p.confidence := p.ComputeScore(tables.template.Some?);
    FoundBounds(p.fields, CORE_FIELDS);
    ScoreRange(Found(p.fields, CORE_FIELDS), tables.template.Some?, |p.unknownLabels|);
    forall key
      ensures Reads(p.fields, Recorded(roles), key)
    {
      FieldReading(Recorded(roles), key);
    }
  }

  // ---- where the code and its comments part

  /** In every response, a label that the template maps to "" counts as unknown
      like any other label without a field, exactly when it does not look like
      prose; only inside a block is it no label at all. */
  lemma {:induction false} DroppedLabelsCountAsUnknown(tables: Tables, lines: seq<string>, i: nat)
    requires i < |lines| && SplitLine(lines[i]).Some? && tables.template.Some?
    requires var l := Lower(TrimSpace(SplitLine(lines[i]).value.0));
             l in tables.template.value && tables.template.value[l] == ""
    requires !Roles(tables, lines)[i].BlockMember?
    ensures SplitLine(lines[i]).value.0 in UnknownLabels(Roles(tables, lines))
            <==> !IsProse(SplitLine(lines[i]).value.0)
  {
    hide IsProse, SplitLine, Lower, TrimSpace, Roles, UnknownLabels, IsMember, MemberValue;
    var roles, name := Roles(tables, lines), SplitLine(lines[i]).value.0;
    EveryLineOnce(tables, lines);
    UnknownLabelsAre(roles, name);
    assert RoleFits(tables, lines, roles, i);
    if j: nat :| j < |roles| && roles[j] == UnknownLabel(name) {
      assert RoleFits(tables, lines, roles, j);
    }
  }

  lemma {:induction false} UnknownLabelsAre(roles: seq<Role>, name: string)
    ensures name in UnknownLabels(roles) <==> exists j: nat :: j < |roles| && roles[j] == UnknownLabel(name)
  {
    if roles != [] {
      var n := |roles| - 1;
      UnknownLabelsAre(roles[..n], name);
      assert roles == roles[..n] + [roles[n]];
      if j: nat :| j < |roles| && roles[j] == UnknownLabel(name) {
        assert j < n ==> roles[..n][j] == UnknownLabel(name);
      }
    }
  }
}
