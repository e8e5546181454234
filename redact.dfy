/** Redaction of Kubernetes `v1` Secrets in rendered YAML: the stream is cut on
    lines that are exactly `---` (the document marker of section 9.1.2 of YAML
    1.2, recognised textually), each Secret document has the entries under its
    `data:` and `stringData:` headers rewritten to `key: [REDACTED]`, and the
    continuation lines of block scalars (section 8.1 of YAML 1.2) are dropped.
    The line scanner is modelled as written, quirks included. */
module Redact {
  import opened Text
  import opened Wrappers

  const REDACTED_VALUE := "[REDACTED]"
  const DOCUMENT_MARKER := "---"

  // ---------------------------------------------------------------------------
  // Multi-document streams: `content.split(/^---$/m)` and `join('---')`
  // ---------------------------------------------------------------------------

  /** `^` of a multiline regular expression holds at position `i`. */
  predicate LineStartAt(s: string, i: nat)
    requires i <= |s|
  {
    i == 0 || IsLineTerminator(s[i - 1])
  }

  /** `$` of a multiline regular expression holds at position `j`. */
  predicate LineEndAt(s: string, j: nat)
    requires j <= |s|
  {
    j == |s| || IsLineTerminator(s[j])
  }

  /** `/^---$/m` matches at position `i`. */
  predicate MarkerAt(s: string, i: nat) {
    && i + 3 <= |s|
    && s[i..i + 3] == DOCUMENT_MARKER
    && LineStartAt(s, i)
    && LineEndAt(s, i + 3)
  }

  /** The pieces of `s[p..]` between document markers, where the current piece
      started at `p` and the search for the next marker has reached `q`. */
  function SplitDocumentsFrom(s: string, p: nat, q: nat): (docs: seq<string>)
    requires p <= q <= |s|
    ensures |docs| >= 1
    decreases |s| - q
  {
    if q + 3 > |s| then [s[p..]]
    else if MarkerAt(s, q) then [s[p..q]] + SplitDocumentsFrom(s, q + 3, q + 3)
    else SplitDocumentsFrom(s, p, q + 1)
  }

  /** `content.split(/^---$/m)` */
  function SplitDocuments(content: string): (docs: seq<string>)
    ensures |docs| >= 1
  {
    SplitDocumentsFrom(content, 0, 0)
  }

  lemma {:induction false} SplitDocumentsFromJoin(s: string, p: nat, q: nat)
    requires p <= q <= |s|
    ensures Join(SplitDocumentsFrom(s, p, q), DOCUMENT_MARKER) == s[p..]
    decreases |s| - q
  {
    if q + 3 <= |s| {
      if MarkerAt(s, q) {
        SplitDocumentsFromJoin(s, q + 3, q + 3);
        JoinCons(s[p..q], SplitDocumentsFrom(s, q + 3, q + 3), DOCUMENT_MARKER);
        assert s[p..] == s[p..q] + DOCUMENT_MARKER + s[q + 3..];
      } else {
        SplitDocumentsFromJoin(s, p, q + 1);
      }
    }
  }

  /** Cutting a stream on its document markers and joining the pieces with
      `---` gives back the stream, byte for byte. */
  lemma SplitDocumentsJoin(content: string)
    ensures Join(SplitDocuments(content), DOCUMENT_MARKER) == content
  {
    SplitDocumentsFromJoin(content, 0, 0);
  }

  /** `s` holds no match of `/^---$/m`. */
  predicate NoMarker(s: string) {
    forall i: nat | i <= |s| :: !MarkerAt(s, i)
  }

  /** Text that holds no marker is one document. */
  lemma {:induction false} NoMarkerOneDocument(s: string, p: nat, q: nat)
    requires p <= q <= |s|
    requires NoMarker(s)
    ensures SplitDocumentsFrom(s, p, q) == [s[p..]]
    decreases |s| - q
  {
    if q + 3 <= |s| {
      assert !MarkerAt(s, q);
      NoMarkerOneDocument(s, p, q + 1);
    }
  }

  /** Text without a `-` holds no marker. */
  lemma NoDashNoMarker(s: string)
    requires '-' !in s
    ensures NoMarker(s)
  {
    forall i: nat | i <= |s| ensures !MarkerAt(s, i) {
      if i + 3 <= |s| {
        assert s[i..i + 3][0] == s[i];
      }
    }
  }

  /** A marker of `a + t` that ends within `a` is a marker of `a`. */
  lemma MarkerInPrefix(a: string, t: string, i: nat)
    requires i + 3 <= |a|
    ensures MarkerAt(a + t, i) ==> MarkerAt(a, i)
  {
    var s := a + t;
    assert s[i..i + 3] == a[i..i + 3];
    if i > 0 {
      assert s[i - 1] == a[i - 1];
    }
    if i + 3 < |a| {
      assert s[i + 3] == a[i + 3];
    }
  }

  /** A marker of `a + b` that starts within `b` is a marker of `b`. */
  lemma MarkerInSuffix(a: string, b: string, i: nat)
    requires |a| <= i
    ensures MarkerAt(a + b, i) ==> MarkerAt(b, i - |a|)
  {
    var s, j := a + b, i - |a|;
    if i + 3 <= |s| {
      assert s[i..i + 3] == b[j..j + 3];
      if j > 0 {
        assert s[i - 1] == b[j - 1];
      }
      if j + 3 < |b| {
        assert s[i + 3] == b[j + 3];
      }
    }
  }

  /** Two texts without a marker, glued by a line break, hold none: `---`
      cannot run across the break. */
  lemma NoMarkerAcrossBreak(a: string, b: string)
    requires NoMarker(a) && NoMarker(b)
    ensures NoMarker(a + "\n" + b)
  {
    var s := a + "\n" + b;
    forall i: nat | i <= |s| ensures !MarkerAt(s, i) {
      if i + 3 <= |a| {
        assert s == a + ("\n" + b);
        MarkerInPrefix(a, "\n" + b, i);
      } else if i <= |a| {
        if i + 3 <= |s| {
          assert s[i..i + 3][|a| - i] == s[|a|];
        }
      } else {
        MarkerInSuffix(a + "\n", b, i);
      }
    }
  }

  /** Lines without a marker, joined with line breaks, hold none. */
  lemma {:induction false} NoMarkerInJoin(lines: seq<string>)
    requires forall k | 0 <= k < |lines| :: NoMarker(lines[k])
    ensures NoMarker(Join(lines, "\n"))
  {
    if |lines| > 1 {
      NoMarkerInJoin(lines[1..]);
      NoMarkerAcrossBreak(lines[0], Join(lines[1..], "\n"));
    }
  }

  // ---------------------------------------------------------------------------
  // isSecretDocument
  // ---------------------------------------------------------------------------

  /** `t` is matched in full by `\s*<key>\s*<value>\s*` (key and value neither
      start nor end with white space). */
  predicate ShapedLine(t: string, key: string, value: string) {
    var u := Trim(t);
    && |key| + |value| <= |u|
    && u[..|key|] == key
    && u[|u| - |value|..] == value
    && AllSpace(u[|key|..|u| - |value|])
  }

  /** `/^\s*<key>\s*<value>\s*$/m.test(doc)`. As in the regular expression,
      the white space may run across line breaks. */
  predicate HasLineMatching(doc: string, key: string, value: string) {
    exists i, j | 0 <= i <= j <= |doc| ::
      LineStartAt(doc, i) && LineEndAt(doc, j) && ShapedLine(doc[i..j], key, value)
  }

  /** A document is a Secret when it has a `kind: Secret` line and an
      `apiVersion: v1` line. */
  predicate IsSecretDocument(doc: string) {
    HasLineMatching(doc, "kind:", "Secret") && HasLineMatching(doc, "apiVersion:", "v1")
  }

  /** Whole lines witness the two tests. */
  lemma SecretDocumentByLines(doc: string, ki: nat, kj: nat, ai: nat, aj: nat)
    requires ki <= kj <= |doc| && ai <= aj <= |doc|
    requires LineStartAt(doc, ki) && LineEndAt(doc, kj) && Trim(doc[ki..kj]) == "kind: Secret"
    requires LineStartAt(doc, ai) && LineEndAt(doc, aj) && Trim(doc[ai..aj]) == "apiVersion: v1"
    ensures IsSecretDocument(doc)
  {
    KindSecretParts("kind: Secret");
    ShapedWithOneSpace(doc[ki..kj], "kind:", "Secret");
    ApiVersionParts("apiVersion: v1");
    ShapedWithOneSpace(doc[ai..aj], "apiVersion:", "v1");
  }

  /** `kind: Secret` is the key `kind:`, one blank and the value `Secret`: the
      shape `ShapedWithOneSpace` takes. The literal is taken apart here only, so
      that `SecretDocumentByLines` never unfolds it. */
  lemma KindSecretParts(s: string)
    requires s == "kind: Secret"
    ensures s == "kind:" + " " + "Secret"
  {
  }

  /** `apiVersion: v1` taken apart the same way, for the same use. */
  lemma ApiVersionParts(s: string)
    requires s == "apiVersion: v1"
    ensures s == "apiVersion:" + " " + "v1"
  {
  }

  /** A line that trims to the key, one blank and the value matches. */
  lemma ShapedWithOneSpace(t: string, key: string, value: string)
    requires Trim(t) == key + " " + value
    ensures ShapedLine(t, key, value)
  {
    var u := Trim(t);
    assert u[..|key|] == key;
    assert u[|u| - |value|..] == value;
    assert u[|key|..|u| - |value|] == " ";
  }

  /** A Secret is never blank: its `kind` line holds more than white space. */
  lemma SecretNotBlank(doc: string)
    requires IsSecretDocument(doc)
    ensures Trim(doc) != ""
  {
    var i, j :| 0 <= i <= j <= |doc| && LineStartAt(doc, i) && LineEndAt(doc, j) && ShapedLine(doc[i..j], "kind:", "Secret");
    TrimFacts(doc[i..j]);
    var m :| 0 <= m < j - i && !IsSpace(doc[i..j][m]);
    TrimFacts(doc);
    assert doc[i + m] == doc[i..j][m];
  }

  // ---------------------------------------------------------------------------
  // redactDataField: the line scanner
  // ---------------------------------------------------------------------------

  /** `^\s*<field>:\s*$` tested on one line: the line is the field name and a
      colon, with white space around and nothing after the colon. */
  predicate IsHeader(line: string, field: string) {
    Trim(line) == field + ":"
  }

  /** The scanner's variables `inDataField`, `dataFieldIndent`,
      `skipMultilineValue` and `multilineKeyIndent`. */
  datatype ScanState = ScanState(
    inDataField: bool,
    dataFieldIndent: nat,
    skipMultilineValue: bool,
    multilineKeyIndent: nat)

  const Start := ScanState(false, 0, false, 0)

  /** A scanner state and the lines it has pushed onto `result`. */
  datatype Scanned = Scanned(state: ScanState, output: seq<string>)

  lemma ColonInTrim(line: string)
    ensures ':' in Trim(line) <==> ':' in line
  {
    var t := Trim(line);
    var lead := LeadingSpaces(line);
    TrimFacts(line);
    if ':' in line {
      var k := IndexOf(line, ':');
      assert !IsSpace(line[k]);
      forall i | 0 <= i < lead ensures IsSpace(line[i]) {
        assert line[i] == line[..lead][i];
      }
      forall i | lead + |t| <= i < |line| ensures IsSpace(line[i]) {
        assert line[i] == line[lead + |t|..][i - lead - |t|];
      }
      assert lead <= k < lead + |t|;
      assert t[k - lead] == line[k];
    }
    if ':' in t {
      var k := IndexOf(t, ':');
      assert line[lead + k] == t[k];
    }
  }

  /** `line.substring(0, line.indexOf(':'))`: the text before the first colon. */
  function KeyOf(line: string): (key: string)
    requires ':' in line
    ensures ':' !in key
    ensures |key| < |line| && line[..|key|] == key && line[|key|] == ':'
  {
    line[..IndexOf(line, ':')]
  }

  /** `line.substring(line.indexOf(':') + 1).trim()` */
  function ValueOf(line: string): string
    requires ':' in line
  {
    Trim(line[IndexOf(line, ':') + 1..])
  }

  /** `valueStart.match(/^[|>-]/)`: the value opens a block scalar (or, as the
      source has it, starts with `-`). */
  predicate StartsBlockScalar(line: string)
    requires ':' in line
  {
    var v := ValueOf(line);
    v != [] && v[0] in "|>-"
  }

  /** The line pushed for a key: everything before the first colon, then
      `: [REDACTED]`. */
  function RedactLine(line: string): (r: string)
    requires ':' in line
    ensures ':' in r
  {
    KeyOf(line) + ": " + REDACTED_VALUE
  }

  /** One iteration of the scanner's loop: the new state and what it pushes
      (nothing or one line). */
  function Step(st: ScanState, line: string, field: string): (r: Scanned)
    ensures |r.output| <= 1
    // a line is dropped only while skipping a block scalar inside the block
    ensures r.output == [] ==> st.inDataField && st.skipMultilineValue && !IsHeader(line, field)
    // a line that is pushed is pushed as it is or redacted
    ensures r.output != [] ==> r.output == [line] || (':' in line && r.output == [RedactLine(line)])
    // only a header line enters the block
    ensures r.state.inDataField ==> IsHeader(line, field) || st.inDataField
  {
    var trimmed := Trim(line);
    var lineIndent := Indent(line);
    if IsHeader(line, field) then
      Scanned(st.(inDataField := true, dataFieldIndent := lineIndent), [line])
    else if !st.inDataField then
      Scanned(st, [line])
    else if trimmed != "" && lineIndent <= st.dataFieldIndent then
      Scanned(st.(inDataField := false, skipMultilineValue := false), [line])
    else if trimmed == "" then
      Scanned(st, if st.skipMultilineValue then [] else [line])
    else if st.skipMultilineValue && lineIndent > st.multilineKeyIndent then
      Scanned(st, [])
    else if ':' in trimmed && !st.skipMultilineValue then
      ColonInTrim(line);
      if StartsBlockScalar(line) then
        Scanned(st.(skipMultilineValue := true, multilineKeyIndent := lineIndent), [RedactLine(line)])
      else
        Scanned(st.(skipMultilineValue := false), [RedactLine(line)])
    else if !st.skipMultilineValue then
      Scanned(st, [line])
    else
      // here lineIndent <= multilineKeyIndent: the block scalar has ended
      Scanned(st.(skipMultilineValue := false), [line])
  }

  /** A loop over `lines` from state `st` whose body is `step`: the final
      state and everything the iterations pushed, in order. */
  function Fold(step: (ScanState, string) -> Scanned, st: ScanState, lines: seq<string>): Scanned
  {
    if lines == [] then Scanned(st, [])
    else
      var before := Fold(step, st, lines[..|lines| - 1]);
      var last := step(before.state, lines[|lines| - 1]);
      Scanned(last.state, before.output + last.output)
  }

  function StepOf(field: string): (ScanState, string) -> Scanned {
    (st, line) => Step(st, line, field)
  }

  /** The scanner run over `lines` from state `st`. */
  function ScanFrom(st: ScanState, lines: seq<string>, field: string): Scanned
  {
    Fold(StepOf(field), st, lines)
  }

  /** What `redactDataField(document, field)` returns. */
  function RedactedField(document: string, field: string): string
  {
    Join(ScanFrom(Start, Split(document, '\n'), field).output, "\n")
  }

  /** `redactDataField`: the scanner as the source writes it, a loop over the
      lines that updates four variables and pushes onto `result`. */
  method RedactDataField(document: string, fieldName: string) returns (redacted: string)
    ensures redacted == RedactedField(document, fieldName)
    ensures (forall k | 0 <= k < |Split(document, '\n')| :: !IsHeader(Split(document, '\n')[k], fieldName))
            ==> redacted == document
  {
    var lines := Split(document, '\n');
    var result: seq<string> := [];
    var inDataField, dataFieldIndent, skipMultilineValue, multilineKeyIndent := false, 0, false, 0;
    for i := 0 to |lines|
      invariant ScanFrom(Start, lines[..i], fieldName)
                == Scanned(ScanState(inDataField, dataFieldIndent, skipMultilineValue, multilineKeyIndent), result)
    {
      var line := lines[i];
      ScanSnoc(Start, lines[..i + 1], fieldName);
      assert lines[..i + 1][..i] == lines[..i] && lines[..i + 1][i] == line;
      var trimmed := Trim(line);
      if IsHeader(line, fieldName) {
        inDataField := true;
        dataFieldIndent := Indent(line);
        result := result + [line];
        continue;
      }
      if inDataField {
        var lineIndent := Indent(line);
        if trimmed != "" && lineIndent <= dataFieldIndent {
          inDataField := false;
          skipMultilineValue := false;
          result := result + [line];
          continue;
        }
        if trimmed == "" {
          if !skipMultilineValue {
            result := result + [line];
          }
          continue;
        }
        if skipMultilineValue && lineIndent > multilineKeyIndent {
          continue;
        }
        if ':' in trimmed && !skipMultilineValue {
          ColonInTrim(line);
          var colonIndex := IndexOf(line, ':');
          var key := line[..colonIndex];
          var valueStart := Trim(line[colonIndex + 1..]);
          result := result + [key + ": " + REDACTED_VALUE];
          if valueStart != [] && valueStart[0] in "|>-" {
            skipMultilineValue := true;
            multilineKeyIndent := lineIndent;
          } else {
            skipMultilineValue := false;
          }
        } else {
          if !skipMultilineValue {
            result := result + [line];
          } else if lineIndent <= multilineKeyIndent {
            skipMultilineValue := false;
            result := result + [line];
          }
        }
      } else {
        result := result + [line];
      }
    }
    assert lines[..|lines|] == lines;
    redacted := Join(result, "\n");
    if forall k | 0 <= k < |lines| :: !IsHeader(lines[k], fieldName) {
      RedactedFieldWithoutHeader(document, fieldName);
    }
  }

  // ---------------------------------------------------------------------------
  // What the scanner does
  // ---------------------------------------------------------------------------

  /** Running a loop over two stretches of lines is running it over the first,
      then over the second from where the first left off. */
  lemma {:induction false} FoldCompose(step: (ScanState, string) -> Scanned, st: ScanState, a: seq<string>, b: seq<string>)
    ensures var first := Fold(step, st, a);
            var second := Fold(step, first.state, b);
            Fold(step, st, a + b) == Scanned(second.state, first.output + second.output)
    decreases |b|
  {
    if b == [] {
      assert a + b == a;
    } else {
      var b' := b[..|b| - 1];
      FoldCompose(step, st, a, b');
      assert (a + b)[..|a + b| - 1] == a + b';
      assert (a + b)[|a + b| - 1] == b[|b| - 1];
    }
  }

  /** Scanning two stretches of lines is scanning the first, then the second
      from where the first left off. */
  lemma ScanCompose(st: ScanState, a: seq<string>, b: seq<string>, field: string)
    ensures var first := ScanFrom(st, a, field);
            var second := ScanFrom(first.state, b, field);
            ScanFrom(st, a + b, field) == Scanned(second.state, first.output + second.output)
  {
    FoldCompose(StepOf(field), st, a, b);
  }

  /** A loop over one line and then the rest. */
  lemma FoldCons(step: (ScanState, string) -> Scanned, st: ScanState, line: string, rest: seq<string>)
    ensures var first := step(st, line);
            var second := Fold(step, first.state, rest);
            Fold(step, st, [line] + rest) == Scanned(second.state, first.output + second.output)
  {
    FoldCompose(step, st, [line], rest);
    assert [line][..0] == [];
  }

  /** Scanning one line is one step. */
  lemma ScanOne(st: ScanState, line: string, field: string)
    ensures ScanFrom(st, [line], field) == Step(st, line, field)
  {
    FoldCons(StepOf(field), st, line, []);
    assert [line] + [] == [line];
  }

  /** Scanning a line and then the rest. */
  lemma ScanCons(st: ScanState, line: string, rest: seq<string>, field: string)
    ensures var first := Step(st, line, field);
            var second := ScanFrom(first.state, rest, field);
            ScanFrom(st, [line] + rest, field) == Scanned(second.state, first.output + second.output)
  {
    FoldCons(StepOf(field), st, line, rest);
  }

  /** Scanning the lines up to the last one, then taking one step on it. */
  lemma ScanSnoc(st: ScanState, lines: seq<string>, field: string)
    requires lines != []
    ensures var before := ScanFrom(st, lines[..|lines| - 1], field);
            var last := Step(before.state, lines[|lines| - 1], field);
            ScanFrom(st, lines, field) == Scanned(last.state, before.output + last.output)
  {
  }

  /** Every line in gives at most one line out. */
  lemma {:induction false} ScanOutputBound(st: ScanState, lines: seq<string>, field: string)
    ensures |ScanFrom(st, lines, field).output| <= |lines|
  {
    if lines != [] {
      ScanOutputBound(st, lines[..|lines| - 1], field);
    }
  }

  predicate NoHeader(lines: seq<string>, field: string) {
    forall k | 0 <= k < |lines| :: !IsHeader(lines[k], field)
  }

  /** Outside a block and without a header line, every line is copied as is. */
  lemma {:induction false} ScanWithoutHeader(st: ScanState, lines: seq<string>, field: string)
    requires !st.inDataField
    requires NoHeader(lines, field)
    ensures ScanFrom(st, lines, field) == Scanned(st, lines)
  {
    if lines != [] {
      var init := lines[..|lines| - 1];
      assert NoHeader(init, field) by {
        forall k | 0 <= k < |init| ensures !IsHeader(init[k], field) { assert init[k] == lines[k]; }
      }
      ScanWithoutHeader(st, init, field);
      assert init + [lines[|lines| - 1]] == lines;
    }
  }

  /** A document without a header line for the field (`data: {}` is not one)
      comes back unchanged. */
  lemma RedactedFieldWithoutHeader(document: string, field: string)
    requires NoHeader(Split(document, '\n'), field)
    ensures RedactedField(document, field) == document
  {
    ScanWithoutHeader(Start, Split(document, '\n'), field);
    JoinSplit(document, '\n');
  }

  /** Every line before the first header line is copied unchanged. */
  lemma LinesBeforeHeaderKept(lines: seq<string>, k: nat, field: string)
    requires k <= |lines|
    requires NoHeader(lines[..k], field)
    ensures |ScanFrom(Start, lines, field).output| >= k
    ensures ScanFrom(Start, lines, field).output[..k] == lines[..k]
  {
    ScanWithoutHeader(Start, lines[..k], field);
    ScanCompose(Start, lines[..k], lines[k..], field);
    assert lines[..k] + lines[k..] == lines;
  }

  /** A redacted line redacts to itself, and its value `[REDACTED]` does not
      open a block scalar. */
  lemma RedactLineFixed(line: string)
    requires ':' in line
    ensures RedactLine(RedactLine(line)) == RedactLine(line)
    ensures !StartsBlockScalar(RedactLine(line))
  {
    RedactedValueShape(REDACTED_VALUE);
    TrimUnpadded(REDACTED_VALUE);
    EntryValueFixed(KeyOf(line), REDACTED_VALUE);
  }

  /** An entry `key: value` whose value has no white space at its ends reads
      back as that key and that value. */
  lemma EntryValueFixed(key: string, value: string)
    requires ':' !in key && Trim(value) == value
    ensures ':' in key + ": " + value
    ensures KeyOf(key + ": " + value) == key
    ensures ValueOf(key + ": " + value) == value
  {
    ColonThenBlank(key, value);
    KeyValueLine(key, " " + value);
    TrimAfterBlank(value);
  }

  /** `key: value` is the key, a colon, and the value after one blank. */
  lemma ColonThenBlank(key: string, value: string)
    ensures key + ": " + value == key + ":" + (" " + value)
  {
    assert ": " == ":" + " ";
  }

  /** A line made of a key free of colons, a colon and a rest: the key is what
      comes before the colon and the value is the trimmed rest. */
  lemma KeyValueLine(key: string, rest: string)
    requires ':' !in key
    ensures ':' in key + ":" + rest
    ensures KeyOf(key + ":" + rest) == key
    ensures ValueOf(key + ":" + rest) == Trim(rest)
  {
    var line := key + ":" + rest;
    assert line[|key|] == ':' && line[..|key|] == key;
    IndexOfFirst(line, ':', |key|);
    assert line[|key| + 1..] == rest;
  }

  /** `[REDACTED]` is bracketed, so it neither carries white space at its ends
      nor opens a block scalar. `RedactLineFixed` and `RedactedEntryShape` take
      these facts from here instead of unfolding the literal. */
  lemma RedactedValueShape(value: string)
    requires value == REDACTED_VALUE
    ensures value != [] && value[0] == '[' && value[|value| - 1] == ']'
    ensures value[0] !in "|>-"
  {
  }

  /** An entry that neither ends the block nor opens a block scalar. */
  predicate PlainEntry(line: string, field: string, dataFieldIndent: nat) {
    && !IsHeader(line, field)
    && ':' in line
    && Indent(line) > dataFieldIndent
    && !StartsBlockScalar(line)
  }

  /** A line of the block that opens no block scalar: a blank line, or a line
      deeper than the header that is an entry whose value opens no block
      scalar or holds no colon at all. */
  predicate BlockLine(line: string, field: string, dataFieldIndent: nat) {
    && !IsHeader(line, field)
    && (Trim(line) == "" || Indent(line) > dataFieldIndent)
    && (':' in line ==> !StartsBlockScalar(line))
  }

  /** What the scanner pushes for such a line: an entry redacted, any other
      line as it is. */
  function RedactEntry(line: string): (r: string)
    ensures ':' in line ==> r == RedactLine(line)
    ensures ':' !in line ==> r == line
  {
    if ':' in line then RedactLine(line) else line
  }

  function RedactLines(lines: seq<string>): (r: seq<string>)
    ensures |r| == |lines|
    ensures forall k | 0 <= k < |lines| :: r[k] == RedactEntry(lines[k])
  {
    if lines == [] then [] else [RedactEntry(lines[0])] + RedactLines(lines[1..])
  }

  /** Every line of `body` is a line of a block indented `indent` that opens
      no block scalar. */
  predicate PlainBody(body: seq<string>, field: string, indent: nat) {
    forall k | 0 <= k < |body| :: BlockLine(body[k], field, indent)
  }

  /** Inside a block, a body that opens no block scalar comes out with each
      entry redacted and every other line kept, and the state unchanged. */
  lemma {:induction false} PlainBodyRedacted(st: ScanState, body: seq<string>, field: string)
    requires st.inDataField && !st.skipMultilineValue
    requires PlainBody(body, field, st.dataFieldIndent)
    ensures ScanFrom(st, body, field) == Scanned(st, RedactLines(body))
  {
    if body != [] {
      var line, rest := body[0], body[1..];
      assert PlainBody(rest, field, st.dataFieldIndent) by {
        forall k | 0 <= k < |rest| ensures BlockLine(rest[k], field, st.dataFieldIndent) {
          assert rest[k] == body[k + 1];
        }
      }
      PlainBodyRedacted(st, rest, field);
      BlockLineStep(st, line, field);
      ScanCons(st, line, rest, field);
      assert body == [line] + rest;
      assert RedactLines(body) == [RedactEntry(line)] + RedactLines(rest);
    }
  }

  /** One such line is pushed as `RedactEntry` gives it, and the state stays
      in the block. */
  lemma BlockLineStep(st: ScanState, line: string, field: string)
    requires st.inDataField && !st.skipMultilineValue
    requires BlockLine(line, field, st.dataFieldIndent)
    ensures Step(st, line, field) == Scanned(st, [RedactEntry(line)])
  {
    ColonInTrim(line);
  }

  lemma PlainEntryStep(st: ScanState, line: string, field: string)
    requires st.inDataField && !st.skipMultilineValue
    requires PlainEntry(line, field, st.dataFieldIndent)
    ensures Step(st, line, field) == Scanned(st, [RedactLine(line)])
  {
    ColonInTrim(line);
    TrimFacts(line);
  }

  /** The block ends at the first non-blank line indented no deeper than its
      header; that line and everything after it up to the next header is
      copied unchanged. */
  lemma BlockEnds(st: ScanState, closing: string, rest: seq<string>, field: string)
    requires st.inDataField
    requires !IsHeader(closing, field) && Trim(closing) != "" && Indent(closing) <= st.dataFieldIndent
    requires NoHeader(rest, field)
    ensures !ScanFrom(st, [closing] + rest, field).state.inDataField
    ensures ScanFrom(st, [closing] + rest, field).output == [closing] + rest
  {
    var after := st.(inDataField := false, skipMultilineValue := false);
    assert Step(st, closing, field) == Scanned(after, [closing]);
    ScanWithoutHeader(after, rest, field);
    ScanCons(st, closing, rest, field);
  }

  /** A line that belongs to a block scalar: blank or deeper than its key. */
  predicate Continuation(line: string, field: string, keyIndent: nat) {
    !IsHeader(line, field) && (Trim(line) == "" || Indent(line) > keyIndent)
  }

  /** After a key whose value opens a block scalar, the key is redacted and the
      scalar's lines, blank ones included, are dropped. */
  lemma BlockScalarDropped(st: ScanState, key: string, cont: seq<string>, field: string)
    requires st.inDataField && !st.skipMultilineValue
    requires !IsHeader(key, field) && ':' in key && Indent(key) > st.dataFieldIndent
    requires StartsBlockScalar(key)
    requires forall k | 0 <= k < |cont| :: Continuation(cont[k], field, Indent(key))
    ensures ScanFrom(st, [key] + cont, field)
            == Scanned(st.(skipMultilineValue := true, multilineKeyIndent := Indent(key)), [RedactLine(key)])
  {
    var skipping := st.(skipMultilineValue := true, multilineKeyIndent := Indent(key));
    BlockScalarStep(st, key, field);
    ContinuationDropped(skipping, cont, field);
    ScanCons(st, key, cont, field);
  }

  /** A key whose value opens a block scalar is redacted and starts skipping. */
  lemma BlockScalarStep(st: ScanState, key: string, field: string)
    requires st.inDataField && !st.skipMultilineValue
    requires !IsHeader(key, field) && ':' in key && Indent(key) > st.dataFieldIndent
    requires StartsBlockScalar(key)
    ensures Step(st, key, field)
            == Scanned(st.(skipMultilineValue := true, multilineKeyIndent := Indent(key)), [RedactLine(key)])
  {
    ColonInTrim(key);
  }

  lemma {:induction false} ContinuationDropped(st: ScanState, cont: seq<string>, field: string)
    requires st.inDataField && st.skipMultilineValue && st.multilineKeyIndent > st.dataFieldIndent
    requires forall k | 0 <= k < |cont| :: Continuation(cont[k], field, st.multilineKeyIndent)
    ensures ScanFrom(st, cont, field) == Scanned(st, [])
  {
    if cont != [] {
      ContinuationDropped(st, cont[..|cont| - 1], field);
    }
  }

  /** The first line after a block scalar that is not deeper than its key (but
      deeper than the header) ends the scalar and is copied unredacted, even when
      it is itself a `key: value` entry. */
  lemma SiblingAfterBlockScalarCopied(st: ScanState, line: string, field: string)
    requires st.inDataField && st.skipMultilineValue
    requires !IsHeader(line, field) && Trim(line) != ""
    requires st.dataFieldIndent < Indent(line) <= st.multilineKeyIndent
    ensures Step(st, line, field) == Scanned(st.(skipMultilineValue := false), [line])
  {
  }

  /** A redacted entry keeps the indentation of the entry it replaces, is not a
      header line and does not open a block scalar. */
  lemma RedactedEntryShape(line: string, field: string)
    requires ':' in line
    ensures Indent(RedactLine(line)) == Indent(line)
    ensures !IsHeader(RedactLine(line), field)
    ensures !StartsBlockScalar(RedactLine(line))
  {
    var r := RedactLine(line);
    var i := IndexOf(line, ':');
    assert r[..i] == line[..i] && r[i] == ':';
    LeadingSpacesSharedPrefix(line, r, i);
    TrimKeepsLast(r);
    assert r[|r| - 1] == ']';
    assert (field + ":")[|field|] == ':';
    RedactLineFixed(line);
  }

  /** An entry that opens a block scalar, then a sibling entry at the same
      depth: the key is redacted but the sibling is copied as it is, because
      the sibling is the line that ends the scalar. */
  lemma SiblingCopiedAfterBlockScalar(st: ScanState, key: string, sibling: string, field: string)
    requires st.inDataField && !st.skipMultilineValue
    requires !IsHeader(key, field) && ':' in key && Indent(key) > st.dataFieldIndent
    requires StartsBlockScalar(key)
    requires !IsHeader(sibling, field) && Trim(sibling) != ""
    requires st.dataFieldIndent < Indent(sibling) <= Indent(key)
    ensures ScanFrom(st, [key, sibling], field)
            == Scanned(st.(multilineKeyIndent := Indent(key)), [RedactLine(key), sibling])
  {
    var skipping := st.(skipMultilineValue := true, multilineKeyIndent := Indent(key));
    BlockScalarStep(st, key, field);
    SiblingAfterBlockScalarCopied(skipping, sibling, field);
    ScanOne(skipping, sibling, field);
    ScanCons(st, key, [sibling], field);
    assert [key, sibling] == [key] + [sibling];
  }

  /** Scanning that output again redacts the sibling as well: the scanner is
      not idempotent. */
  lemma SiblingRedactedOnSecondPass(st: ScanState, key: string, sibling: string, field: string)
    requires st.inDataField && !st.skipMultilineValue
    requires ':' in key && Indent(key) > st.dataFieldIndent
    requires !IsHeader(sibling, field) && ':' in sibling && !StartsBlockScalar(sibling)
    requires st.dataFieldIndent < Indent(sibling)
    ensures ScanFrom(st, [RedactLine(key), sibling], field) == Scanned(st, [RedactLine(key), RedactLine(sibling)])
  {
    var redacted := RedactLine(key);
    assert Step(st, redacted, field) == Scanned(st, [redacted]) by {
      RedactedEntryShape(key, field);
      RedactLineFixed(key);
      PlainEntryStep(st, redacted, field);
    }
    PlainEntryStep(st, sibling, field);
    ScanOne(st, sibling, field);
    ScanCons(st, redacted, [sibling], field);
    assert [redacted, sibling] == [redacted] + [sibling];
  }

  /** Up to the first header line everything is copied; from the header on the
      scanner runs inside the block, at the header's indentation. */
  lemma ScanAfterHeader(pre: seq<string>, header: string, body: seq<string>, field: string)
    requires NoHeader(pre, field) && IsHeader(header, field)
    ensures var inBlock := ScanFrom(ScanState(true, Indent(header), false, 0), body, field);
            ScanFrom(Start, pre + [header] + body, field) == Scanned(inBlock.state, pre + [header] + inBlock.output)
  {
    var entered := ScanState(true, Indent(header), false, 0);
    var inBlock := ScanFrom(entered, body, field);
    HeaderStep(Start, header, field);
    ScanCons(Start, header, body, field);
    assert ScanFrom(Start, [header] + body, field) == Scanned(inBlock.state, [header] + inBlock.output);
    ScanWithoutHeader(Start, pre, field);
    ScanCompose(Start, pre, [header] + body, field);
    assert pre + [header] + body == pre + ([header] + body);
    assert pre + [header] + inBlock.output == pre + ([header] + inBlock.output);
  }

  /** A header line enters the block at its own indentation. */
  lemma HeaderStep(st: ScanState, header: string, field: string)
    requires IsHeader(header, field)
    ensures Step(st, header, field) == Scanned(st.(inDataField := true, dataFieldIndent := Indent(header)), [header])
  {
  }

  /** The same two passes over whole documents: a document with a `field:`
      header, then a key opening a block scalar, then a sibling key, loses the
      scalar and keeps the sibling's value on the first pass; redacting the
      result again redacts the sibling's value. */
  lemma RedactedFieldNotIdempotent(pre: seq<string>, header: string, key: string, sibling: string, field: string)
    requires NoHeader(pre, field) && IsHeader(header, field)
    requires !IsHeader(key, field) && ':' in key && Indent(key) > Indent(header) && StartsBlockScalar(key)
    requires !IsHeader(sibling, field) && ':' in sibling && !StartsBlockScalar(sibling)
    requires Indent(header) < Indent(sibling) <= Indent(key)
    requires forall k | 0 <= k < |pre| :: '\n' !in pre[k]
    requires '\n' !in header && '\n' !in key && '\n' !in sibling
    ensures RedactedField(Join(pre + [header, key, sibling], "\n"), field)
            == Join(pre + [header, RedactLine(key), sibling], "\n")
    ensures RedactedField(Join(pre + [header, RedactLine(key), sibling], "\n"), field)
            == Join(pre + [header, RedactLine(key), RedactLine(sibling)], "\n")
  {
    RedactLineChars(key);
    LinesOfJoin(pre, header, key, sibling, '\n');
    LinesOfJoin(pre, header, RedactLine(key), sibling, '\n');
    FirstPassOutput(pre, header, key, sibling, field);
    SecondPassOutput(pre, header, key, sibling, field);
  }

  /** Redaction brings in no line break and no `-`. */
  lemma RedactLineChars(line: string)
    requires ':' in line
    ensures '\n' in RedactLine(line) ==> '\n' in line
    ensures '-' in RedactLine(line) ==> '-' in line
  {
    assert forall x | x in KeyOf(line) :: x in line;
    assert '\n' !in ": " + REDACTED_VALUE && '-' !in ": " + REDACTED_VALUE;
  }

  /** Redacting a line brings in no marker. */
  lemma RedactLineNoMarker(line: string)
    requires ':' in line && NoMarker(line)
    ensures NoMarker(RedactLine(line))
  {
    forall i: nat | i <= |RedactLine(line)| ensures !MarkerAt(RedactLine(line), i) {
      RedactedMarkerInKey(line, i);
    }
  }

  /** A marker of a redacted line lies in the key, followed there by the same
      character as in the line, so it is a marker of the line. */
  lemma RedactedMarkerInKey(line: string, i: nat)
    requires ':' in line
    ensures MarkerAt(RedactLine(line), i) ==> MarkerAt(line, i)
  {
    var key, tail := KeyOf(line), ": " + REDACTED_VALUE;
    var r := RedactLine(line);
    assert r == key + tail && '-' !in tail && r[|key|] == ':';
    if MarkerAt(r, i) {
      assert forall j | |key| <= j < |r| :: r[j] != '-' by {
        forall j | |key| <= j < |r| ensures r[j] != '-' {
          assert r[j] == tail[j - |key|];
        }
      }
      assert r[i + 2] == r[i..i + 3][2];
      assert i + 3 < |key|;
      assert line[i..i + 3] == key[i..i + 3] == r[i..i + 3];
      if i > 0 {
        assert line[i - 1] == key[i - 1] == r[i - 1];
      }
      assert line[i + 3] == key[i + 3] == r[i + 3];
    }
  }

  lemma LinesOfJoin(pre: seq<string>, a: string, b: string, c: string, sep: char)
    requires forall k | 0 <= k < |pre| :: sep !in pre[k]
    requires sep !in a && sep !in b && sep !in c
    ensures Split(Join(pre + [a, b, c], [sep]), sep) == pre + [a, b, c]
  {
    var tail := [a, b, c];
    var lines := pre + tail;
    forall k | 0 <= k < |lines| ensures sep !in lines[k] {
      if k < |pre| { assert lines[k] == pre[k]; } else { assert lines[k] == tail[k - |pre|]; }
    }
    SplitJoin(lines, sep);
  }

  lemma FirstPassOutput(pre: seq<string>, header: string, key: string, sibling: string, field: string)
    requires NoHeader(pre, field) && IsHeader(header, field)
    requires !IsHeader(key, field) && ':' in key && Indent(key) > Indent(header) && StartsBlockScalar(key)
    requires !IsHeader(sibling, field) && ':' in sibling
    requires Indent(header) < Indent(sibling) <= Indent(key)
    ensures ScanFrom(Start, pre + [header, key, sibling], field).output == pre + [header, RedactLine(key), sibling]
  {
    ColonInTrim(sibling);
    assert pre + [header, key, sibling] == pre + [header] + [key, sibling];
    assert pre + [header, RedactLine(key), sibling] == pre + [header] + [RedactLine(key), sibling];
    SiblingCopiedAfterBlockScalar(ScanState(true, Indent(header), false, 0), key, sibling, field);
    ScanAfterHeader(pre, header, [key, sibling], field);
  }

  lemma SecondPassOutput(pre: seq<string>, header: string, key: string, sibling: string, field: string)
    requires NoHeader(pre, field) && IsHeader(header, field)
    requires ':' in key && Indent(key) > Indent(header)
    requires !IsHeader(sibling, field) && ':' in sibling && !StartsBlockScalar(sibling)
    requires Indent(header) < Indent(sibling)
    ensures ScanFrom(Start, pre + [header, RedactLine(key), sibling], field).output
            == pre + [header, RedactLine(key), RedactLine(sibling)]
  {
    var redacted := RedactLine(key);
    assert pre + [header, redacted, sibling] == pre + [header] + [redacted, sibling];
    assert pre + [header, redacted, RedactLine(sibling)] == pre + [header] + [redacted, RedactLine(sibling)];
    SiblingRedactedOnSecondPass(ScanState(true, Indent(header), false, 0), key, sibling, field);
    ScanAfterHeader(pre, header, [redacted, sibling], field);
  }

  // ---------------------------------------------------------------------------
  // Where a second pass changes nothing
  // ---------------------------------------------------------------------------

  /** A redacted block line is a block line again, and redacts to itself. */
  lemma RedactedLineStaysPlain(line: string, field: string, indent: nat)
    requires BlockLine(line, field, indent)
    ensures BlockLine(RedactEntry(line), field, indent)
    ensures RedactEntry(RedactEntry(line)) == RedactEntry(line)
  {
    if ':' in line {
      ColonInTrim(line);
      RedactedEntryShape(line, field);
      RedactLineFixed(line);
    }
  }

  /** A redacted body that opened no block scalar opens none, and redacts to
      itself. */
  lemma RedactedBodyStaysPlain(body: seq<string>, field: string, indent: nat)
    requires PlainBody(body, field, indent)
    ensures PlainBody(RedactLines(body), field, indent)
    ensures RedactLines(RedactLines(body)) == RedactLines(body)
  {
    var r := RedactLines(body);
    forall k | 0 <= k < |body| ensures BlockLine(r[k], field, indent) && RedactEntry(r[k]) == r[k] {
      RedactedLineStaysPlain(body[k], field, indent);
    }
  }

  /** Inside a block, a body that is already redacted passes through
      unchanged. */
  lemma RedactedBodyFixed(st: ScanState, body: seq<string>, field: string)
    requires st.inDataField && !st.skipMultilineValue
    requires PlainBody(body, field, st.dataFieldIndent)
    ensures ScanFrom(st, RedactLines(body), field) == Scanned(st, RedactLines(body))
  {
    RedactedBodyStaysPlain(body, field, st.dataFieldIndent);
    PlainBodyRedacted(st, RedactLines(body), field);
  }

  /** The lines of a document whose `field` block opens no block scalar:
      lines without a header, the header, the block's body, and lines after
      the block, the first of which ends it. A block that runs to the end of
      the text has no lines after it, and its body may end in blank lines. */
  predicate PlainBlock(pre: seq<string>, header: string, body: seq<string>, post: seq<string>, field: string) {
    && NoHeader(pre, field) && IsHeader(header, field)
    && PlainBody(body, field, Indent(header))
    && NoHeader(post, field)
    && (post != [] ==> Trim(post[0]) != "" && Indent(post[0]) <= Indent(header))
  }

  /** The scanner redacts each entry of the block and copies every other
      line. */
  lemma PlainBlockOutput(pre: seq<string>, header: string, body: seq<string>, post: seq<string>, field: string)
    requires PlainBlock(pre, header, body, post, field)
    ensures ScanFrom(Start, pre + [header] + body + post, field).output == pre + [header] + RedactLines(body) + post
  {
    var rest := body + post;
    ScanAfterHeader(pre, header, rest, field);
    BodyThenBlockEnd(ScanState(true, Indent(header), false, 0), body, post, field);
    Regroup(pre + [header], body, post);
    Regroup(pre + [header], RedactLines(body), post);
  }

  lemma Regroup<T>(a: seq<T>, b: seq<T>, c: seq<T>)
    ensures a + b + c == a + (b + c)
  {
  }

  /** Inside the block, the body is redacted, and the lines from the one that
      ends the block on are copied. */
  lemma BodyThenBlockEnd(st: ScanState, body: seq<string>, post: seq<string>, field: string)
    requires st.inDataField && !st.skipMultilineValue
    requires PlainBody(body, field, st.dataFieldIndent) && NoHeader(post, field)
    requires post != [] ==> Trim(post[0]) != "" && Indent(post[0]) <= st.dataFieldIndent
    ensures ScanFrom(st, body + post, field).output == RedactLines(body) + post
  {
    PlainBodyRedacted(st, body, field);
    ScanCompose(st, body, post, field);
    if post != [] {
      assert NoHeader(post[1..], field) by {
        forall k | 0 <= k < |post[1..]| ensures !IsHeader(post[1..][k], field) { assert post[1..][k] == post[k + 1]; }
      }
      BlockEnds(st, post[0], post[1..], field);
      assert [post[0]] + post[1..] == post;
    }
  }

  /** Line `k` of `a + m + c`, read off the part it falls in. */
  lemma PartAt<T>(a: seq<T>, m: seq<T>, c: seq<T>, k: nat)
    requires k < |a + m + c|
    ensures (a + m + c)[k] == if k < |a| then a[k] else if k < |a| + |m| then m[k - |a|] else c[k - |a| - |m|]
  {
  }

  /** What redacting one line cannot bring in: a line break, a header line or
      a marker. */
  lemma RedactEntryAdds(line: string, field: string)
    ensures '\n' in RedactEntry(line) ==> '\n' in line
    ensures IsHeader(RedactEntry(line), field) ==> IsHeader(line, field)
    ensures NoMarker(line) ==> NoMarker(RedactEntry(line))
  {
    if ':' in line {
      RedactLineChars(line);
      RedactedEntryShape(line, field);
      if NoMarker(line) {
        RedactLineNoMarker(line);
      }
    }
  }

  /** Redacting the body of a block brings in no line break. */
  lemma RedactedBlockFree(front: seq<string>, body: seq<string>, post: seq<string>)
    requires forall k | 0 <= k < |front + body + post| :: '\n' !in (front + body + post)[k]
    ensures forall k | 0 <= k < |front + RedactLines(body) + post| :: '\n' !in (front + RedactLines(body) + post)[k]
  {
    var r := RedactLines(body);
    forall k | 0 <= k < |front + r + post| ensures '\n' !in (front + r + post)[k] {
      PartAt(front, body, post, k);
      PartAt(front, r, post, k);
      if |front| <= k < |front| + |body| {
        RedactEntryAdds(body[k - |front|], "");
      }
    }
  }

  /** Redacting the body of a block brings in no header line. */
  lemma RedactedBlockNoHeader(front: seq<string>, body: seq<string>, post: seq<string>, field: string)
    requires NoHeader(front + body + post, field)
    ensures NoHeader(front + RedactLines(body) + post, field)
  {
    var r := RedactLines(body);
    forall k | 0 <= k < |front + r + post| ensures !IsHeader((front + r + post)[k], field) {
      PartAt(front, body, post, k);
      PartAt(front, r, post, k);
      if |front| <= k < |front| + |body| {
        RedactEntryAdds(body[k - |front|], field);
      }
    }
  }

  /** Redacting the body of a block brings in no marker. */
  lemma RedactedBlockNoMarker(front: seq<string>, body: seq<string>, post: seq<string>)
    requires forall k | 0 <= k < |front + body + post| :: NoMarker((front + body + post)[k])
    ensures forall k | 0 <= k < |front + RedactLines(body) + post| :: NoMarker((front + RedactLines(body) + post)[k])
  {
    var r := RedactLines(body);
    forall k | 0 <= k < |front + r + post| ensures NoMarker((front + r + post)[k]) {
      PartAt(front, body, post, k);
      PartAt(front, r, post, k);
      if |front| <= k < |front| + |body| {
        RedactEntryAdds(body[k - |front|], "");
      }
    }
  }

  /** A document whose `field` block opens no block scalar: the first pass
      redacts each entry of the block and keeps every other line, and a second
      pass changes nothing. */
  lemma RedactedFieldIdempotent(pre: seq<string>, header: string, body: seq<string>, post: seq<string>, field: string)
    requires PlainBlock(pre, header, body, post, field)
    requires forall k | 0 <= k < |pre + [header] + body + post| :: '\n' !in (pre + [header] + body + post)[k]
    ensures var once := Join(pre + [header] + RedactLines(body) + post, "\n");
            && RedactedField(Join(pre + [header] + body + post, "\n"), field) == once
            && RedactedField(once, field) == once
  {
    var lines := pre + [header] + body + post;
    var redacted := pre + [header] + RedactLines(body) + post;
    RedactedBodyStaysPlain(body, field, Indent(header));
    PlainBlockOutput(pre, header, body, post, field);
    PlainBlockOutput(pre, header, RedactLines(body), post, field);
    RedactedBlockFree(pre + [header], body, post);
    SplitJoin(lines, '\n');
    SplitJoin(redacted, '\n');
  }

  /** A block scalar that runs to the end of the document takes the
      document's last, empty line with it: the document ends with a line
      break, and its redaction ends with the `]` of `[REDACTED]`. */
  lemma BlockScalarAtEndDropsLastBreak(pre: seq<string>, header: string, key: string, cont: seq<string>, field: string)
    requires NoHeader(pre, field) && IsHeader(header, field)
    requires !IsHeader(key, field) && ':' in key && Indent(key) > Indent(header) && StartsBlockScalar(key)
    requires forall k | 0 <= k < |cont| :: Continuation(cont[k], field, Indent(key))
    requires cont != [] && cont[|cont| - 1] == ""
    requires forall k | 0 <= k < |pre + [header] + ([key] + cont)| :: '\n' !in (pre + [header] + ([key] + cont))[k]
    ensures var doc := Join(pre + [header] + ([key] + cont), "\n");
            doc != [] && doc[|doc| - 1] == '\n'
    ensures var out := RedactedField(Join(pre + [header] + ([key] + cont), "\n"), field);
            && out == Join(pre + [header] + [RedactLine(key)], "\n")
            && out != [] && out[|out| - 1] == ']'
  {
    BlockScalarToEnd(pre, header, key, cont, field);
    EndsWithEmptyLine(pre + [header], key, cont);
    RedactedValueShape(REDACTED_VALUE);
    EndsWithLastLine(pre + [header], RedactLine(key));
  }

  /** A block scalar that runs to the end of the document: the document is
      redacted to the lines before the scalar's key and the key redacted. */
  lemma BlockScalarToEnd(pre: seq<string>, header: string, key: string, cont: seq<string>, field: string)
    requires NoHeader(pre, field) && IsHeader(header, field)
    requires !IsHeader(key, field) && ':' in key && Indent(key) > Indent(header) && StartsBlockScalar(key)
    requires forall k | 0 <= k < |cont| :: Continuation(cont[k], field, Indent(key))
    requires forall k | 0 <= k < |pre + [header] + ([key] + cont)| :: '\n' !in (pre + [header] + ([key] + cont))[k]
    ensures RedactedField(Join(pre + [header] + ([key] + cont), "\n"), field) == Join(pre + [header] + [RedactLine(key)], "\n")
  {
    ScanAfterHeader(pre, header, [key] + cont, field);
    BlockScalarDropped(ScanState(true, Indent(header), false, 0), key, cont, field);
    SplitJoin(pre + [header] + ([key] + cont), '\n');
  }

  /** Lines whose last one is empty join to a text that ends with a line
      break. */
  lemma EndsWithEmptyLine(front: seq<string>, line: string, rest: seq<string>)
    requires front != [] && rest != [] && rest[|rest| - 1] == ""
    ensures var doc := Join(front + ([line] + rest), "\n");
            doc != [] && doc[|doc| - 1] == '\n'
  {
    var init := front + ([line] + rest[..|rest| - 1]);
    assert front + ([line] + rest) == init + [""];
    JoinAppend(init, [""], "\n");
  }

  /** Joined lines end as their last line does. */
  lemma EndsWithLastLine(lines: seq<string>, last: string)
    requires lines != [] && last != []
    ensures var doc := Join(lines + [last], "\n");
            doc != [] && doc[|doc| - 1] == last[|last| - 1]
  {
    JoinAppend(lines, [last], "\n");
  }

  // ---------------------------------------------------------------------------
  // redactSecretInDocument, redactSecretsInYaml, redactSecretsInFile
  // ---------------------------------------------------------------------------

  /** `redactSecretInDocument`: non-Secrets are returned as they are; Secrets
      have their `data` block and then their `stringData` block redacted. */
  function RedactSecretInDocument(document: string): string
  {
    if !IsSecretDocument(document) then document
    else RedactedField(RedactedField(document, "data"), "stringData")
  }

  /** The callback of `documents.map`: blank documents are kept as they are. */
  function RedactDocument(document: string): string
  {
    if Trim(document) == "" then document else RedactSecretInDocument(document)
  }

  function RedactDocuments(docs: seq<string>): (r: seq<string>)
    ensures |r| == |docs|
    ensures forall k | 0 <= k < |docs| :: r[k] == RedactDocument(docs[k])
  {
    if docs == [] then [] else [RedactDocument(docs[0])] + RedactDocuments(docs[1..])
  }

  /** `redactSecretsInYaml` */
  function RedactSecretsInYaml(content: string): string
  {
    Join(RedactDocuments(SplitDocuments(content)), DOCUMENT_MARKER)
  }

  /** A stream without a Secret document comes back byte for byte. */
  lemma YamlWithoutSecretsUnchanged(content: string)
    requires forall k | 0 <= k < |SplitDocuments(content)| :: !IsSecretDocument(SplitDocuments(content)[k])
    ensures RedactSecretsInYaml(content) == content
  {
    var docs := SplitDocuments(content);
    assert RedactDocuments(docs) == docs;
    SplitDocumentsJoin(content);
  }

  /** What `redactSecretsInFile` did: whether it reports a redaction, and the
      text it handed to `writeFile`, if it got that far. */
  datatype FileResult = FileResult(redacted: bool, written: Option<string>)

  /** `redactSecretsInFile`, with the file system as two inputs: what
      `readFile` produced (`None` when it threw) and whether `writeFile`
      succeeds. */
  function RedactSecretsInFile(read: Option<string>, writeSucceeds: bool): (r: FileResult)
    ensures r.redacted ==> read.Some? && r.written == Some(RedactSecretsInYaml(read.value))
    ensures r.written.Some? <==> read.Some? && RedactSecretsInYaml(read.value) != read.value
    ensures r.redacted <==> r.written.Some? && writeSucceeds
  {
    match read
    case None => FileResult(false, None)
    case Some(content) =>
      var redactedContent := RedactSecretsInYaml(content);
      if content != redactedContent then FileResult(writeSucceeds, Some(redactedContent))
      else FileResult(false, None)
  }

  /** A file without Secrets is neither rewritten nor reported. */
  lemma FileWithoutSecretsUntouched(content: string, writeSucceeds: bool)
    requires forall k | 0 <= k < |SplitDocuments(content)| :: !IsSecretDocument(SplitDocuments(content)[k])
    ensures RedactSecretsInFile(Some(content), writeSucceeds) == FileResult(false, None)
  {
    YamlWithoutSecretsUnchanged(content);
  }
}
