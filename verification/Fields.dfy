/** The field syntax of one org_mapping entry: `:` separates fields, `\:` is a colon inside one. */
module Fields {

  // ---------------------------------------------------------------- printer

  function EscapeByte(c: char): string {
    if c == ':' then "\\:" else [c]
  }

  /** `escapeColon`. */
  function Escape(s: string): string {
    if s == "" then "" else EscapeByte(s[0]) + Escape(s[1..])
  }

  /** The entry that holds the given fields. */
  function JoinEscaped(fields: seq<string>): string
    requires fields != []
  {
    if |fields| == 1 then Escape(fields[0])
    else Escape(fields[0]) + ":" + JoinEscaped(fields[1..])
  }

  /** The shape of a mapping entry. */
  lemma JoinThree(a: string, b: string, c: string)
    ensures JoinEscaped([a, b, c]) == Escape(a) + ":" + (Escape(b) + ":" + Escape(c))
  {
    var fields := [a, b, c];
    assert fields[1..] == [b, c] && [b, c][1..] == [c];
    assert JoinEscaped([b, c]) == Escape(b) + ":" + Escape(c);
  }

  // ---------------------------------------------------------------- parser

  /** Puts a text in front of the first field. */
  function Push(front: string, fields: seq<string>): seq<string>
    requires fields != []
  {
    [front + fields[0]] + fields[1..]
  }

  lemma PushFacts(a: string, b: string, fields: seq<string>)
    requires fields != []
    ensures Push("", fields) == fields
    ensures Push(a, [""] + fields) == [a] + fields
    ensures Push(a, Push(b, fields)) == Push(a + b, fields)
  {
    assert "" + fields[0] == fields[0] && a + "" == a;
    assert a + (b + fields[0]) == a + b + fields[0];
  }

  /** The fields of an entry, by recursion on the text. */
  function Split(s: string): (fields: seq<string>)
    ensures fields != []
    decreases |s|
  {
    if s == "" then [""]
    else if s[0] == '\\' && |s| > 1 && s[1] == ':' then Push(":", Split(s[2..]))
    else if s[0] == ':' then [""] + Split(s[1..])
    else Push([s[0]], Split(s[1..]))
  }

  /** `splitUnescapedColon`: one pass over the bytes with a field under construction. */
  method SplitUnescapedColon(s: string) returns (fields: seq<string>)
    ensures fields == Split(s)
  {
    fields := [];
    var cur := "";
    var i := 0;
    assert s[0..] == s;
    PushFacts("", "", Split(s));
    while i < |s|
      invariant 0 <= i <= |s|
      invariant Split(s) == fields + Push(cur, Split(s[i..]))
    {
      ghost var rest := s[i..];
      if s[i] == '\\' && i + 1 < |s| && s[i + 1] == ':' {
        assert rest[2..] == s[i + 2..];
        PushFacts(cur, ":", Split(rest[2..]));
        cur := cur + ":";
        i := i + 2;
      } else if s[i] == ':' {
        assert rest[1..] == s[i + 1..];
        PushFacts(cur, "", Split(rest[1..]));
        fields := fields + [cur];
        cur := "";
        i := i + 1;
      } else {
        assert rest[1..] == s[i + 1..];
        PushFacts(cur, [s[i]], Split(rest[1..]));
        cur := cur + [s[i]];
        i := i + 1;
      }
    }
    assert cur + "" == cur;
    fields := fields + [cur];
  }

  // ---------------------------------------------------------------- parser and printer are inverse

  ghost predicate EndsInBackslash(f: string) {
    f != "" && f[|f| - 1] == '\\'
  }

  /** The field lists that survive: no field but the last ends in a backslash. */
  ghost predicate Printable(fields: seq<string>) {
    fields != [] && forall i | 0 <= i < |fields| - 1 :: !EndsInBackslash(fields[i])
  }

  lemma PushIsPrinted(c: char, fields: seq<string>)
    requires fields != []
    ensures JoinEscaped(Push([c], fields)) == EscapeByte(c) + JoinEscaped(fields)
  {}

  /** Printing what was parsed gives the text back, for every text. */
  lemma {:induction false} PrintAfterParse(s: string)
    ensures JoinEscaped(Split(s)) == s
    decreases |s|
  {
    if s == "" {
    } else if s[0] == '\\' && |s| > 1 && s[1] == ':' {
      PrintAfterParse(s[2..]);
      PushIsPrinted(':', Split(s[2..]));
      assert s == "\\:" + s[2..];
    } else if s[0] == ':' {
      PrintAfterParse(s[1..]);
      assert Escape("") + ":" + s[1..] == s;
    } else {
      PrintAfterParse(s[1..]);
      PushIsPrinted(s[0], Split(s[1..]));
    }
  }

  /** The parser only yields printable lists. */
  lemma {:induction false} ParsedIsPrintable(s: string)
    ensures Printable(Split(s))
    decreases |s|
  {
    if s == "" {
    } else {
      var k := if s[0] == '\\' && |s| > 1 && s[1] == ':' then 2 else 1;
      var rest := Split(s[k..]);
      ParsedIsPrintable(s[k..]);
      if s[0] != ':' || k == 2 {
        var c := if k == 2 then ':' else s[0];
        assert Split(s) == Push([c], rest);
        if |rest| > 1 && rest[0] == "" && k == 1 {
          assert s[1..] != "" && s[1..][0] == ':';
        }
        assert Split(s)[1..] == rest[1..];
      }
    }
  }

  /** The first field of a text that begins with a printed field and a delimiter. */
  lemma {:induction false} SplitFirst(f: string, rest: string)
    requires !EndsInBackslash(f)
    ensures Split(Escape(f) + ":" + rest) == [f] + Split(rest)
  {
    var s := Escape(f) + ":" + rest;
    if f == "" {
      assert s == ":" + rest;
    } else {
      var tail := Escape(f[1..]) + ":" + rest;
      assert s == EscapeByte(f[0]) + tail;
      SplitFirst(f[1..], rest);
      assert [f[0]] + f[1..] == f;
      assert f[1..] != "" ==> tail[0] == EscapeByte(f[1])[0];
      assert Split(s) == Push([f[0]], Split(tail)) by {
        if f[0] == ':' {
          assert s[2..] == tail;
        } else {
          assert s[1..] == tail;
        }
      }
    }
  }

  lemma {:induction false} SplitLast(f: string)
    ensures Split(Escape(f)) == [f]
  {
    if f == "" {
    } else {
      var s, tail := Escape(f), Escape(f[1..]);
      SplitLast(f[1..]);
      assert [f[0]] + f[1..] == f;
      assert f[1..] != "" ==> tail[0] == EscapeByte(f[1])[0];
      assert Split(s) == Push([f[0]], Split(tail)) by {
        if f[0] == ':' {
          assert s[2..] == tail;
        } else {
          assert s[1..] == tail;
        }
      }
    }
  }

  lemma {:induction false} ParseAfterPrintIfPrintable(fields: seq<string>)
    requires Printable(fields)
    ensures Split(JoinEscaped(fields)) == fields
  {
    if |fields| == 1 {
      SplitLast(fields[0]);
    } else {
      SplitFirst(fields[0], JoinEscaped(fields[1..]));
      ParseAfterPrintIfPrintable(fields[1..]);
    }
  }

  /** Parsing what was printed gives the fields back exactly for the printable lists. */
  lemma ParseAfterPrint(fields: seq<string>)
    requires fields != []
    ensures Split(JoinEscaped(fields)) == fields <==> Printable(fields)
  {
    if Printable(fields) {
      ParseAfterPrintIfPrintable(fields);
    }
    ParsedIsPrintable(JoinEscaped(fields));
  }

  /** The parser is a bijection from texts onto the printable lists. */
  lemma SplitIsBijection(s: string, t: string, fields: seq<string>)
    ensures Split(s) == Split(t) ==> s == t
    ensures Printable(fields) <==> exists u :: Split(u) == fields
  {
    PrintAfterParse(s);
    PrintAfterParse(t);
    if Printable(fields) {
      ParseAfterPrint(fields);
      assert Split(JoinEscaped(fields)) == fields;
    }
    forall u | Split(u) == fields ensures Printable(fields) {
      ParsedIsPrintable(u);
    }
  }

  // ---------------------------------------------------------------- facts about escaping

  lemma {:induction false} EscapeFree(s: string)
    ensures |Escape(s)| >= |s|
    ensures Escape(s) == s <==> ':' !in s
    ensures ':' in s ==> |Escape(s)| > |s|
  {
    if s == "" {
    } else {
      EscapeFree(s[1..]);
      assert s == [s[0]] + s[1..];
    }
  }

  /** Escaping keeps every other byte out, and lets it in, as it was. */
  lemma {:induction false} EscapeKeepsOut(s: string, c: char)
    requires c != ':' && c != '\\'
    ensures c in Escape(s) <==> c in s
  {
    if s == "" {
    } else {
      EscapeKeepsOut(s[1..], c);
      assert s == [s[0]] + s[1..];
    }
  }
}
