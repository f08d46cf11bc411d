/** The few string operations the parsers use. Characters are Unicode scalar
    values; case mapping covers ASCII letters. */
module Text {
  predicate IsSpace(c: char) {
    || c in {' ', '\t', '\n', '\r'}
    || c as int in {0x0B, 0x0C, 0x85, 0xA0, 0x1680, 0x2028, 0x2029, 0x202F, 0x205F, 0x3000}
    || 0x2000 <= c as int <= 0x200A
  }

  function TrimLeft(s: string): string {
    if s != "" && IsSpace(s[0]) then TrimLeft(s[1..]) else s
  }

  function TrimRight(s: string): string {
    if s != "" && IsSpace(s[|s| - 1]) then TrimRight(s[..|s| - 1]) else s
  }

  function TrimSpace(s: string): string {
    TrimRight(TrimLeft(s))
  }

  /** Trailing carriage returns only. */
  function TrimCR(s: string): string {
    if s != "" && s[|s| - 1] == '\r' then TrimCR(s[..|s| - 1]) else s
  }

  function LowerChar(c: char): char {
    if 'A' <= c <= 'Z' then (c as int + 32) as char else c
  }

  function Lower(s: string): string {
    seq(|s|, i requires 0 <= i < |s| => LowerChar(s[i]))
  }

  predicate EqualFold(a: string, b: string) {
    Lower(a) == Lower(b)
  }

  /** The first position of c, or the length of s. */
  function IndexOf(s: string, c: char): (i: nat)
    ensures i <= |s| && c !in s[..i] && (i < |s| ==> s[i] == c)
  {
    if s == "" || s[0] == c then 0
    else
      assert forall k :: 0 < k <= |s| ==> s[..k] == [s[0]] + s[1..][..k - 1];
      1 + IndexOf(s[1..], c)
  }

  /** The last position of c plus one, or zero. */
  function LastIndexAfter(s: string, c: char): (i: nat)
    ensures i <= |s| && c !in s[i..] && (i > 0 ==> s[i - 1] == c)
  {
    if s == "" || s[|s| - 1] == c then |s| else LastIndexAfter(s[..|s| - 1], c)
  }

  predicate ContainsAny(s: string, chars: string) {
    exists c :: c in s && c in chars
  }

  /** Lines separated by line feeds, as many as there are line feeds plus one. */
  function Split(s: string, sep: char): (parts: seq<string>)
    ensures parts != []
  {
    var i := IndexOf(s, sep);
    if i == |s| then [s] else [s[..i]] + Split(s[i + 1..], sep)
  }

  // ---- what trimming computes

  ghost predicate AllSpace(s: string) {
    forall c :: c in s ==> IsSpace(c)
  }

  /** No white space at either end. */
  ghost predicate Trimmed(s: string) {
    s != "" ==> !IsSpace(s[0]) && !IsSpace(s[|s| - 1])
  }

  lemma {:induction false} TrimLeftIs(a: string, t: string)
    requires AllSpace(a) && (t != "" ==> !IsSpace(t[0]))
    ensures TrimLeft(a + t) == t
  {
    hide IsSpace;
    if a == "" {
      assert a + t == t;
    } else {
      assert (a + t)[1..] == a[1..] + t && a[0] in a;
      TrimLeftIs(a[1..], t);
    }
  }

  lemma {:induction false} TrimRightIs(t: string, b: string)
    requires AllSpace(b) && (t != "" ==> !IsSpace(t[|t| - 1]))
    ensures TrimRight(t + b) == t
  {
    hide IsSpace;
    if b == "" {
      assert t + b == t;
    } else {
      var n := |b| - 1;
      assert (t + b)[..|t + b| - 1] == t + b[..n] && b[n] in b;
      TrimRightIs(t, b[..n]);
    }
  }

  lemma {:induction false} TrimLeftSplits(s: string) returns (a: string)
    ensures s == a + TrimLeft(s) && AllSpace(a)
    ensures TrimLeft(s) != "" ==> !IsSpace(TrimLeft(s)[0])
  {
    hide IsSpace;
    if s != "" && IsSpace(s[0]) {
      var rest := TrimLeftSplits(s[1..]);
      a := [s[0]] + rest;
    } else {
      a := "";
    }
  }

  lemma {:induction false} TrimRightSplits(s: string) returns (b: string)
    ensures s == TrimRight(s) + b && AllSpace(b)
    ensures TrimRight(s) != "" ==> !IsSpace(TrimRight(s)[|TrimRight(s)| - 1])
  {
    hide IsSpace;
    if s != "" && IsSpace(s[|s| - 1]) {
      var rest := TrimRightSplits(s[..|s| - 1]);
      b := rest + [s[|s| - 1]];
    } else {
      b := "";
    }
  }

  /** Trimming takes white space off both ends, and nothing else off. */
  lemma {:induction false} TrimSplits(s: string) returns (a: string, b: string)
    ensures s == a + TrimSpace(s) + b && AllSpace(a) && AllSpace(b) && Trimmed(TrimSpace(s))
  {
    hide IsSpace;
    a := TrimLeftSplits(s);
    b := TrimRightSplits(TrimLeft(s));
  }

  lemma {:induction false} TrimSpaceIs(a: string, t: string, b: string)
    requires AllSpace(a) && AllSpace(b) && Trimmed(t)
    ensures TrimSpace(a + t + b) == t
  {
    hide IsSpace;
    if t == "" {
      assert a + t + b == (a + b) + "";
      TrimLeftIs(a + b, "");
    } else {
      assert a + t + b == a + (t + b);
      TrimLeftIs(a, t + b);
      TrimRightIs(t, b);
    }
  }

  /** The trimmed text is the only one without white space at its ends that the
      text is, but for white space around it. */
  lemma {:induction false} TrimExactly(s: string, t: string)
    ensures TrimSpace(s) == t <==> Trimmed(t) && exists a, b :: AllSpace(a) && AllSpace(b) && s == a + t + b
  {
    hide TrimSpace, AllSpace, Trimmed;
    var a0, b0 := TrimSplits(s);
    if a, b :| AllSpace(a) && AllSpace(b) && s == a + t + b && Trimmed(t) {
      TrimSpaceIs(a, t, b);
    }
  }

  /** White space around a text does not change what is left when it is trimmed. */
  lemma {:induction false} TrimWithin(a: string, s: string, b: string)
    requires AllSpace(a) && AllSpace(b)
    ensures TrimSpace(a + s + b) == TrimSpace(s)
  {
    hide TrimSpace, IsSpace;
    var c, d := TrimSplits(s);
    assert a + s + b == (a + c) + TrimSpace(s) + (d + b);
    TrimSpaceIs(a + c, TrimSpace(s), d + b);
  }

  lemma {:induction false} TrimCRSplits(s: string) returns (b: string)
    ensures s == TrimCR(s) + b && (forall c :: c in b ==> c == '\r')
    ensures TrimCR(s) != "" ==> TrimCR(s)[|TrimCR(s)| - 1] != '\r'
  {
    if s != "" && s[|s| - 1] == '\r' {
      var rest := TrimCRSplits(s[..|s| - 1]);
      b := rest + [s[|s| - 1]];
    } else {
      b := "";
    }
  }

  /** Carriage returns are white space. */
  lemma {:induction false} TrimCRFirst(s: string)
    ensures TrimSpace(TrimCR(s)) == TrimSpace(s)
  {
    hide TrimSpace;
    var b := TrimCRSplits(s);
    TrimWithin("", TrimCR(s), b);
    assert "" + TrimCR(s) + b == s;
  }

  // ---- what splitting computes

  function Join(parts: seq<string>, sep: char): string
    requires parts != []
  {
    if |parts| == 1 then parts[0] else parts[0] + [sep] + Join(parts[1..], sep)
  }

  lemma {:induction false} FirstIndex(s: string, c: char, i: nat)
    requires i <= |s| && c !in s[..i] && (i < |s| ==> s[i] == c)
    ensures IndexOf(s, c) == i
  {
  }

  /** The parts hold no separator, and joined by it they give the text again. */
  lemma {:induction false} SplitJoins(s: string, sep: char)
    ensures Join(Split(s, sep), sep) == s
    ensures forall p :: p in Split(s, sep) ==> sep !in p
    decreases |s|
  {
    var i := IndexOf(s, sep);
    if i < |s| {
      SplitJoins(s[i + 1..], sep);
      assert Split(s, sep)[1..] == Split(s[i + 1..], sep);
      assert s == s[..i] + [sep] + s[i + 1..];
    } else {
      assert s[..i] == s;
    }
  }

  lemma {:induction false} SplitFirst(first: string, sep: char, rest: string)
    requires sep !in first
    ensures Split(first, sep) == [first]
    ensures Split(first + [sep] + rest, sep) == [first] + Split(rest, sep)
  {
    assert first[..|first|] == first;
    FirstIndex(first, sep, |first|);
    var s := first + [sep] + rest;
    assert s[..|first|] == first && s[|first|] == sep && s[|first| + 1..] == rest;
    FirstIndex(s, sep, |first|);
  }

  /** Any parts without the separator are got back from the joined text. */
  lemma {:induction false} JoinSplits(parts: seq<string>, sep: char)
    requires parts != [] && forall p :: p in parts ==> sep !in p
    ensures Split(Join(parts, sep), sep) == parts
  {
    hide Split;
    if |parts| == 1 {
      SplitFirst(parts[0], sep, "");
    } else {
      SplitFirst(parts[0], sep, Join(parts[1..], sep));
      JoinSplits(parts[1..], sep);
    }
  }

  // ---- letter case

  /** Lowering keeps the length, turns A to Z into a to z and keeps all else; doing
      it twice is doing it once. */
  lemma {:induction false} LowerIs(s: string)
    ensures |Lower(s)| == |s|
    ensures forall i :: 0 <= i < |s| ==>
              && !('A' <= Lower(s)[i] <= 'Z')
              && (if 'A' <= s[i] <= 'Z' then Lower(s)[i] as int - 'a' as int == s[i] as int - 'A' as int
                  else Lower(s)[i] == s[i])
    ensures Lower(Lower(s)) == Lower(s)
  {
  }

  /** Trimmed, two texts with a visible character between them are the first without
      white space before it, the character, and the second without any after it. */
  lemma {:induction false} TrimmedAround(pre: string, mark: char, v: string) returns (b: string, tail: string)
    requires mark !in pre && !IsSpace(mark)
    ensures var name := TrimSpace(pre); var before := name + b;
            && mark !in before && AllSpace(b) && (name == "" ==> b == "")
            && TrimSpace(before) == name && TrimSpace(tail) == TrimSpace(v)
            && TrimSpace(pre + [mark] + v) == before + [mark] + tail
  {
    hide TrimSpace, AllSpace, Trimmed;
    var front, back;
    front, b := NoneAfterNothing(pre);
    tail, back := NoneBeforeNothing(v);
    var t := TrimSpace(pre) + b + [mark] + tail;
    VisibleEnds(TrimSpace(pre), b, mark, tail);
    assert pre + [mark] + v == front + t + back;
    TrimSpaceIs(front, t, back);
    assert forall c :: c in TrimSpace(pre) + b ==> c in pre;
  }

  lemma {:induction false} NoneAfterNothing(s: string) returns (a: string, b: string)
    ensures s == a + TrimSpace(s) + b && AllSpace(a) && AllSpace(b) && Trimmed(TrimSpace(s))
    ensures (TrimSpace(s) == "" ==> b == "") && TrimSpace(TrimSpace(s) + b) == TrimSpace(s)
  {
    hide TrimSpace, IsSpace;
    a, b := TrimSplits(s);
    if TrimSpace(s) == "" {
      a, b := s, "";
    }
    TrimSpaceIs("", TrimSpace(s), b);
    assert "" + TrimSpace(s) + b == TrimSpace(s) + b;
  }

  lemma {:induction false} NoneBeforeNothing(s: string) returns (tail: string, d: string)
    ensures s == tail + d && AllSpace(d) && TrimSpace(tail) == TrimSpace(s)
    ensures tail != "" ==> !IsSpace(tail[|tail| - 1])
  {
    hide TrimSpace, IsSpace;
    var c, e := TrimSplits(s);
    if TrimSpace(s) == "" {
      tail, d := "", s;
      TrimSpaceIs("", "", "");
      assert "" + "" + "" == "";
    } else {
      tail, d := c + TrimSpace(s), e;
      TrimSpaceIs(c, TrimSpace(s), "");
      assert c + TrimSpace(s) + "" == tail;
    }
  }

  lemma VisibleEnds(name: string, b: string, mark: char, tail: string)
    requires Trimmed(name) && (name == "" ==> b == "") && !IsSpace(mark)
    requires tail != "" ==> !IsSpace(tail[|tail| - 1])
    ensures Trimmed(name + b + [mark] + tail)
  {
    hide IsSpace;
  }
}
