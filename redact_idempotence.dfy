/** Redaction of whole streams. A Secret whose `data` block opens no block
    scalar is redacted once and for all: a second run changes nothing. A
    Secret whose `data` block holds a key with a block scalar followed by a
    sibling key keeps the sibling's value on the first run and loses it on the
    second. And a block scalar that runs to the end of a Secret glues the
    following document marker to the Secret's last line. */
module RedactIdempotence {
  import opened Text
  import opened Redact

  /** Text without a marker is one document, and a non-blank one is redacted
      as a whole. */
  lemma SingleDocument(doc: string)
    requires NoMarker(doc) && Trim(doc) != ""
    ensures RedactSecretsInYaml(doc) == RedactSecretInDocument(doc)
  {
    NoMarkerOneDocument(doc, 0, 0);
    assert doc[0..] == doc;
    assert RedactDocuments([doc]) == [RedactDocument(doc)];
  }

  /** Joining lines with `\n` adds no other character. */
  lemma {:induction false} NoCharInJoin(lines: seq<string>, c: char)
    requires c != '\n'
    requires forall k | 0 <= k < |lines| :: c !in lines[k]
    ensures c !in Join(lines, "\n")
  {
    if |lines| > 1 {
      NoCharInJoin(lines[1..], c);
      assert forall k | 0 <= k < |lines[1..]| :: lines[1..][k] == lines[k + 1];
    }
  }

  /** `line` is a whole line of `doc` at offset `o`: a multiline `^` holds
      before it and `$` after it. */
  predicate WholeLineAt(doc: string, o: nat, line: string) {
    && o + |line| <= |doc| && doc[o..o + |line|] == line
    && LineStartAt(doc, o) && LineEndAt(doc, o + |line|)
  }

  /** Each of several lines joined with `\n` is a whole line of the text. */
  lemma {:induction false} LineInJoin(lines: seq<string>, k: nat) returns (o: nat)
    requires k < |lines|
    ensures WholeLineAt(Join(lines, "\n"), o, lines[k])
  {
    var doc := Join(lines, "\n");
    if |lines| == 1 {
      o := 0;
    } else {
      var tail := Join(lines[1..], "\n");
      assert doc == lines[0] + "\n" + tail;
      if k == 0 {
        o := 0;
        assert doc[..|lines[0]|] == lines[0];
      } else {
        var o' := LineInJoin(lines[1..], k - 1);
        var n := |lines[k]|;
        assert lines[1..][k - 1] == lines[k];
        o := |lines[0]| + 1 + o';
        assert doc[o..o + n] == tail[o'..o' + n];
        if o' > 0 {
          assert doc[o - 1] == tail[o' - 1];
        }
        if o' + n < |tail| {
          assert doc[o + n] == tail[o' + n];
        }
      }
    }
  }

  /** Lines of which one trims to `kind: Secret` and one to `apiVersion: v1`,
      in either order and anywhere, join to a Secret that is not blank. */
  lemma SecretByLines(lines: seq<string>, ki: nat, vi: nat)
    requires ki < |lines| && vi < |lines|
    requires Trim(lines[ki]) == "kind: Secret" && Trim(lines[vi]) == "apiVersion: v1"
    ensures IsSecretDocument(Join(lines, "\n")) && Trim(Join(lines, "\n")) != ""
  {
    var ko := LineInJoin(lines, ki);
    var vo := LineInJoin(lines, vi);
    SecretAtLines(Join(lines, "\n"), ko, lines[ki], vo, lines[vi]);
  }

  /** A text holding a whole line that trims to `kind: Secret` and one that
      trims to `apiVersion: v1` is a Secret that is not blank. */
  lemma SecretAtLines(doc: string, ko: nat, kind: string, vo: nat, version: string)
    requires WholeLineAt(doc, ko, kind) && WholeLineAt(doc, vo, version)
    requires Trim(kind) == "kind: Secret" && Trim(version) == "apiVersion: v1"
    ensures IsSecretDocument(doc) && Trim(doc) != ""
  {
    SecretDocumentByLines(doc, ko, ko + |kind|, vo, vo + |version|);
    SecretNotBlank(doc);
  }

  // The five lines of the example document, each with the facts the scanner
  // sees in it.

  lemma KindLine(k: string)
    requires k == "kind: Secret"
    ensures Trim(k) == "kind: Secret" && !IsHeader(k, "data") && !IsHeader(k, "stringData")
    ensures '\n' !in k && '-' !in k
  {
    assert LeadingSpaces(k) == 0 && TrailingSpaces(k) == 0;
  }

  lemma VersionLine(v: string)
    requires v == "apiVersion: v1"
    ensures Trim(v) == "apiVersion: v1" && !IsHeader(v, "data") && !IsHeader(v, "stringData")
    ensures '\n' !in v && '-' !in v
  {
    assert LeadingSpaces(v) == 0 && TrailingSpaces(v) == 0;
  }

  lemma DataLine(d: string)
    requires d == "data:"
    ensures IsHeader(d, "data") && Indent(d) == 0 && !IsHeader(d, "stringData")
    ensures '\n' !in d && '-' !in d
  {
    assert LeadingSpaces(d) == 0 && TrailingSpaces(d) == 0;
  }

  lemma TwoDeep(s: string)
    requires |s| >= 3 && s[0] == ' ' && s[1] == ' ' && !IsSpace(s[2]) && !IsSpace(s[|s| - 1])
    ensures Trim(s) == s[2..] && Indent(s) == 2
  {
    assert s[1..][1..] == s[2..];
    assert LeadingSpaces(s[2..]) == 0 && TrailingSpaces(s[2..]) == 0;
    assert LeadingSpaces(s) == 2;
  }

  lemma BlockKeyLine(a: string)
    requires a == "  a: |"
    ensures ':' in a && Indent(a) == 2 && StartsBlockScalar(a)
    ensures !IsHeader(a, "data") && !IsHeader(a, "stringData")
    ensures '\n' !in a && '-' !in a
    ensures RedactLine(a) == "  a: [REDACTED]"
  {
    TwoDeep(a);
    assert IndexOf(a, ':') == 3 by { assert a[3] == ':'; }
    assert ValueOf(a) == "|" by {
      assert a[4..] == " |";
      assert LeadingSpaces(" |") == 1;
    }
  }

  lemma SiblingLine(b: string)
    requires b == "  b: v"
    ensures ':' in b && Indent(b) == 2 && !StartsBlockScalar(b)
    ensures !IsHeader(b, "data") && !IsHeader(b, "stringData")
    ensures '\n' !in b && '-' !in b
    ensures RedactLine(b) == "  b: [REDACTED]"
  {
    TwoDeep(b);
    assert IndexOf(b, ':') == 3 by { assert b[3] == ':'; }
    assert ValueOf(b) == "v" by {
      assert b[4..] == " v";
      assert LeadingSpaces(" v") == 1;
    }
  }

  // The five helpers below state small facts about the example's five lines
  // that Dafny can see unaided. They model nothing: each is called where it is
  // needed so that the callers, whose contexts hold the line literals, do not
  // unfold those literals or the list displays themselves, which kept them
  // under the solver's resource limit.

  lemma TwoThenThree<T>(x0: T, x1: T, x2: T, x3: T, x4: T)
    ensures [x0, x1] + [x2, x3, x4] == [x0, x1, x2, x3, x4]
  {
  }

  lemma TwoLinesFree(x0: string, x1: string, c: char)
    requires c !in x0 && c !in x1
    ensures forall j | 0 <= j < |[x0, x1]| :: c !in [x0, x1][j]
  {
  }

  lemma NoHeaderTwo(x0: string, x1: string, field: string)
    requires !IsHeader(x0, field) && !IsHeader(x1, field)
    ensures NoHeader([x0, x1], field)
  {
  }

  lemma NoHeaderFive(x0: string, x1: string, x2: string, x3: string, x4: string, field: string)
    requires !IsHeader(x0, field) && !IsHeader(x1, field) && !IsHeader(x2, field)
    requires !IsHeader(x3, field) && !IsHeader(x4, field)
    ensures NoHeader([x0, x1, x2, x3, x4], field)
  {
  }

  lemma NoDashFive(x0: string, x1: string, x2: string, x3: string, x4: string)
    requires '-' !in x0 && '-' !in x1 && '-' !in x2 && '-' !in x3 && '-' !in x4
    ensures '-' !in Join([x0, x1, x2, x3, x4], "\n")
  {
    var lines := [x0, x1, x2, x3, x4];
    assert forall k | 0 <= k < 5 :: '-' !in lines[k];
    NoCharInJoin(lines, '-');
  }

  /** The facts the scanner needs about five lines whose `field` block holds
      a key opening a block scalar (`a`) and then a sibling key (`b`). */
  predicate SiblingBlock(k: string, v: string, d: string, a: string, b: string, field: string) {
    && !IsHeader(k, field) && !IsHeader(v, field) && IsHeader(d, field)
    && !IsHeader(a, field) && ':' in a && Indent(a) > Indent(d) && StartsBlockScalar(a)
    && !IsHeader(b, field) && ':' in b && !StartsBlockScalar(b)
    && Indent(d) < Indent(b) <= Indent(a)
    && '\n' !in k && '\n' !in v && '\n' !in d && '\n' !in a && '\n' !in b
  }

  /** The facts about the five lines of a Secret whose `data` block holds a key
      opening a block scalar (`a`) and then a sibling key (`b`). */
  predicate SiblingSecretLines(k: string, v: string, d: string, a: string, b: string) {
    && Trim(k) == "kind: Secret" && Trim(v) == "apiVersion: v1"
    && SiblingBlock(k, v, d, a, b, "data")
    && !IsHeader(k, "stringData") && !IsHeader(v, "stringData") && !IsHeader(d, "stringData")
    && !IsHeader(b, "stringData")
    && '-' !in k && '-' !in v && '-' !in d && '-' !in a && '-' !in b
  }

  /** The passes over the `field` block: the first keeps `b`, the second
      redacts it. */
  lemma FieldPasses(k: string, v: string, d: string, a: string, b: string, field: string)
    requires SiblingBlock(k, v, d, a, b, field)
    ensures RedactedField(Join([k, v, d, a, b], "\n"), field) == Join([k, v, d, RedactLine(a), b], "\n")
    ensures RedactedField(Join([k, v, d, RedactLine(a), b], "\n"), field)
            == Join([k, v, d, RedactLine(a), RedactLine(b)], "\n")
  {
    var pre := [k, v];
    TwoThenThree(k, v, d, a, b);
    TwoThenThree(k, v, d, RedactLine(a), b);
    TwoThenThree(k, v, d, RedactLine(a), RedactLine(b));
    TwoLinesFree(k, v, '\n');
    NoHeaderTwo(k, v, field);
    RedactedFieldNotIdempotent(pre, d, a, b, field);
  }

  /** Five lines without a `stringData:` header pass the `stringData` pass
      unchanged. */
  lemma StringDataPass(x0: string, x1: string, x2: string, x3: string, x4: string)
    requires !IsHeader(x0, "stringData") && !IsHeader(x1, "stringData") && !IsHeader(x2, "stringData")
    requires !IsHeader(x3, "stringData") && !IsHeader(x4, "stringData")
    requires '\n' !in x0 && '\n' !in x1 && '\n' !in x2 && '\n' !in x3 && '\n' !in x4
    ensures RedactedField(Join([x0, x1, x2, x3, x4], "\n"), "stringData") == Join([x0, x1, x2, x3, x4], "\n")
  {
    LinesOfJoin([x0, x1], x2, x3, x4, '\n');
    TwoThenThree(x0, x1, x2, x3, x4);
    NoHeaderFive(x0, x1, x2, x3, x4, "stringData");
    RedactedFieldWithoutHeader(Join([x0, x1, x2, x3, x4], "\n"), "stringData");
  }

  /** Five lines opening with `kind: Secret` and `apiVersion: v1`, without a
      `-`, are one Secret document: the stream is that document redacted. */
  lemma WholeSecret(k: string, v: string, x2: string, x3: string, x4: string)
    requires Trim(k) == "kind: Secret" && Trim(v) == "apiVersion: v1"
    requires '-' !in k && '-' !in v && '-' !in x2 && '-' !in x3 && '-' !in x4
    ensures var doc := Join([k, v, x2, x3, x4], "\n");
            RedactSecretsInYaml(doc) == RedactedField(RedactedField(doc, "data"), "stringData")
  {
    var doc := Join([k, v, x2, x3, x4], "\n");
    SecretByLines([k, v, x2, x3, x4], 0, 1);
    NoDashFive(k, v, x2, x3, x4);
    NoDashNoMarker(doc);
    SingleDocument(doc);
  }

  /** A Secret whose `data` block holds a key opening a block scalar and then a
      sibling key comes out of `redactSecretsInYaml` with the sibling's value
      intact, and a second run redacts it. */
  lemma SecretWithSiblingNotIdempotent(k: string, v: string, d: string, a: string, b: string)
    requires SiblingSecretLines(k, v, d, a, b)
    ensures RedactSecretsInYaml(Join([k, v, d, a, b], "\n")) == Join([k, v, d, RedactLine(a), b], "\n")
    ensures RedactSecretsInYaml(Join([k, v, d, RedactLine(a), b], "\n"))
            == Join([k, v, d, RedactLine(a), RedactLine(b)], "\n")
  {
    RedactLineChars(a);
    RedactLineChars(b);
    RedactedEntryShape(a, "stringData");
    RedactedEntryShape(b, "stringData");
    FieldPasses(k, v, d, a, b, "data");
    StringDataPass(k, v, d, RedactLine(a), b);
    StringDataPass(k, v, d, RedactLine(a), RedactLine(b));
    WholeSecret(k, v, d, a, b);
    WholeSecret(k, v, d, RedactLine(a), b);
  }

  /** The lines `kind: Secret`, `apiVersion: v1`, `data:`, `  a: |`,
      `  b: v` have that shape. */
  lemma ExampleLines(k: string, v: string, d: string, a: string, b: string)
    requires k == "kind: Secret" && v == "apiVersion: v1" && d == "data:"
    requires a == "  a: |" && b == "  b: v"
    ensures SiblingSecretLines(k, v, d, a, b)
    ensures RedactLine(a) == "  a: [REDACTED]" && RedactLine(b) == "  b: [REDACTED]"
  {
    KindLine(k);
    VersionLine(v);
    DataLine(d);
    BlockKeyLine(a);
    SiblingLine(b);
  }

  /** Two line lists that differ in their last line join to different texts. */
  lemma LastLineDiffers(pre: seq<string>, d: string, a: string, b: string, b': string)
    requires forall j | 0 <= j < |pre| :: '\n' !in pre[j]
    requires '\n' !in d && '\n' !in a && '\n' !in b && '\n' !in b' && b != b'
    ensures Join(pre + [d, a, b], "\n") != Join(pre + [d, a, b'], "\n")
  {
    LinesOfJoin(pre, d, a, b, '\n');
    LinesOfJoin(pre, d, a, b', '\n');
    assert (pre + [d, a, b])[|pre| + 2] != (pre + [d, a, b'])[|pre| + 2];
  }

  /** Hence, whenever the sibling's value is not already `[REDACTED]`,
      redacting the output of `redactSecretsInYaml` again changes it. */
  lemma RedactTwiceDiffers(k: string, v: string, d: string, a: string, b: string)
    requires SiblingSecretLines(k, v, d, a, b) && RedactLine(b) != b
    ensures RedactSecretsInYaml(RedactSecretsInYaml(Join([k, v, d, a, b], "\n")))
            != RedactSecretsInYaml(Join([k, v, d, a, b], "\n"))
  {
    var ra, rb := RedactLine(a), RedactLine(b);
    SecretWithSiblingNotIdempotent(k, v, d, a, b);
    RedactLineChars(a);
    RedactLineChars(b);
    TwoLinesFree(k, v, '\n');
    LastLineDiffers([k, v], d, ra, b, rb);
    TwoThenThree(k, v, d, ra, b);
    TwoThenThree(k, v, d, ra, rb);
  }

  /** The Secret `kind: Secret`, `apiVersion: v1`, `data:`, `  a: |`,
      `  b: v` as one stream: the first run gives `  a: [REDACTED]` and keeps
      `  b: v`; a second run changes the output. */
  lemma SecretRedactionNotIdempotent(k: string, v: string, d: string, a: string, b: string)
    requires k == "kind: Secret" && v == "apiVersion: v1" && d == "data:"
    requires a == "  a: |" && b == "  b: v"
    ensures RedactSecretsInYaml(Join([k, v, d, a, b], "\n")) == Join([k, v, d, "  a: [REDACTED]", b], "\n")
    ensures RedactSecretsInYaml(RedactSecretsInYaml(Join([k, v, d, a, b], "\n")))
            != RedactSecretsInYaml(Join([k, v, d, a, b], "\n"))
  {
    ExampleLines(k, v, d, a, b);
    SecretWithSiblingNotIdempotent(k, v, d, a, b);
    RedactTwiceDiffers(k, v, d, a, b);
  }

  // ---------------------------------------------------------------------------
  // Where a second run changes nothing
  // ---------------------------------------------------------------------------

  /** The stream is one Secret whose only `data` block opens no block scalar
      (it may hold blank lines and end with the text), which has no
      `stringData:` header, whose line `ki` trims to `kind: Secret` and line
      `vi` to `apiVersion: v1`, both outside the block's body, and none of
      whose lines holds a `---` marker. */
  predicate PlainSecret(pre: seq<string>, header: string, body: seq<string>, post: seq<string>, ki: nat, vi: nat) {
    var lines := pre + [header] + body + post;
    var front := |pre| + 1;
    && PlainBlock(pre, header, body, post, "data")
    && NoHeader(lines, "stringData")
    && (ki < front || front + |body| <= ki < |lines|)
    && (vi < front || front + |body| <= vi < |lines|)
    && Trim(lines[ki]) == "kind: Secret" && Trim(lines[vi]) == "apiVersion: v1"
    && (forall k | 0 <= k < |lines| :: '\n' !in lines[k])
    && (forall k | 0 <= k < |lines| :: NoMarker(lines[k]))
  }

  /** Such a Secret: `redactSecretsInYaml` redacts each entry of its `data`
      block and keeps every other line, and running it on its own output
      changes nothing. */
  lemma PlainSecretRedactionIdempotent(pre: seq<string>, header: string, body: seq<string>, post: seq<string>,
                                       ki: nat, vi: nat)
    requires PlainSecret(pre, header, body, post, ki, vi)
    ensures var once := Join(pre + [header] + RedactLines(body) + post, "\n");
            && RedactSecretsInYaml(Join(pre + [header] + body + post, "\n")) == once
            && RedactSecretsInYaml(once) == once
  {
    var lines := pre + [header] + body + post;
    var redacted := pre + [header] + RedactLines(body) + post;
    PlainSecretFieldPasses(pre, header, body, post);
    RedactedSecretStaysSecret(pre + [header], body, post, ki, vi);
    SecretByLines(lines, ki, vi);
    SecretByLines(redacted, ki, vi);
    RedactedBlockNoMarker(pre + [header], body, post);
    NoMarkerInJoin(lines);
    NoMarkerInJoin(redacted);
    SingleDocument(Join(lines, "\n"));
    SingleDocument(Join(redacted, "\n"));
  }

  /** Lines outside the body are the same before and after the body is
      redacted, so the `kind` and `apiVersion` lines stay. */
  lemma RedactedSecretStaysSecret(front: seq<string>, body: seq<string>, post: seq<string>, ki: nat, vi: nat)
    requires ki < |front| || |front| + |body| <= ki < |front + body + post|
    requires vi < |front| || |front| + |body| <= vi < |front + body + post|
    ensures ki < |front + RedactLines(body) + post| && vi < |front + RedactLines(body) + post|
    ensures (front + RedactLines(body) + post)[ki] == (front + body + post)[ki]
    ensures (front + RedactLines(body) + post)[vi] == (front + body + post)[vi]
  {
    PartAt(front, body, post, ki);
    PartAt(front, RedactLines(body), post, ki);
    PartAt(front, body, post, vi);
    PartAt(front, RedactLines(body), post, vi);
  }

  /** The two field passes over such a Secret, on it and on its output. */
  lemma PlainSecretFieldPasses(pre: seq<string>, header: string, body: seq<string>, post: seq<string>)
    requires PlainBlock(pre, header, body, post, "data")
    requires NoHeader(pre + [header] + body + post, "stringData")
    requires forall k | 0 <= k < |pre + [header] + body + post| :: '\n' !in (pre + [header] + body + post)[k]
    ensures var doc := Join(pre + [header] + body + post, "\n");
            var once := Join(pre + [header] + RedactLines(body) + post, "\n");
            && RedactedField(RedactedField(doc, "data"), "stringData") == once
            && RedactedField(RedactedField(once, "data"), "stringData") == once
  {
    var front := pre + [header];
    var redacted := front + RedactLines(body) + post;
    var once := Join(redacted, "\n");
    RedactedFieldIdempotent(pre, header, body, post, "data");
    RedactedBlockFree(front, body, post);
    RedactedBlockNoHeader(front, body, post, "stringData");
    SplitJoin(redacted, '\n');
    RedactedFieldWithoutHeader(once, "stringData");
  }

  // ---------------------------------------------------------------------------
  // A block scalar at the end of a Secret
  // ---------------------------------------------------------------------------

  /** `doc` is a Secret made of the lines `pre`, a `data:` header, a key whose
      value opens a block scalar, and that scalar's lines up to the end of the
      document, the last one empty; no `stringData:` header comes before the
      key. */
  predicate BlockScalarAtEnd(doc: string, pre: seq<string>, header: string, key: string, cont: seq<string>) {
    && doc == Join(pre + [header] + ([key] + cont), "\n") && IsSecretDocument(doc)
    && NoHeader(pre, "data") && IsHeader(header, "data")
    && !IsHeader(key, "data") && ':' in key && Indent(key) > Indent(header) && StartsBlockScalar(key)
    && (forall k | 0 <= k < |cont| :: Continuation(cont[k], "data", Indent(key)))
    && cont != [] && cont[|cont| - 1] == ""
    && (forall k | 0 <= k < |pre + [header] + ([key] + cont)| :: '\n' !in (pre + [header] + ([key] + cont))[k])
    && NoHeader(pre + [header], "stringData")
  }

  /** A Secret whose `data` block ends in a block scalar running to the end of
      the document, followed by another document: the Secret's redaction ends
      with `]` instead of a line break, so in the redacted stream the `---`
      after it no longer starts a line and is no document marker. */
  lemma MarkerGluedAfterBlockScalar(content: string, pre: seq<string>, header: string, key: string, cont: seq<string>)
    requires |SplitDocuments(content)| >= 2
    requires BlockScalarAtEnd(SplitDocuments(content)[0], pre, header, key, cont)
    ensures ':' in key
    ensures var first := Join(pre + [header] + [RedactLine(key)], "\n");
            var out := RedactSecretsInYaml(content);
            && |first| + 3 <= |out| && out[..|first|] == first && out[|first|..|first| + 3] == DOCUMENT_MARKER
            && first != [] && first[|first| - 1] == ']' && !MarkerAt(out, |first|)
  {
    var docs := SplitDocuments(content);
    GluedSecretDocument(docs[0], pre, header, key, cont);
    MarkerAfterUnclosedLine(RedactDocuments(docs));
  }

  /** Such a Secret is redacted to its lines up to the block-scalar key, the
      key redacted, with no line break after it. */
  lemma GluedSecretDocument(doc: string, pre: seq<string>, header: string, key: string, cont: seq<string>)
    requires BlockScalarAtEnd(doc, pre, header, key, cont)
    ensures ':' in key
    ensures var first := Join(pre + [header] + [RedactLine(key)], "\n");
            RedactDocument(doc) == first && first != [] && first[|first| - 1] == ']'
  {
    BlockScalarAtEndDropsLastBreak(pre, header, key, cont, "data");
    GluedSecretStringDataPass(pre, header, key, cont);
    SecretNotBlank(doc);
  }

  /** Documents joined with `---`, the first of which ends in a character that
      ends no line: the first marker follows that character, so it does not
      start a line. */
  lemma MarkerAfterUnclosedLine(docs: seq<string>)
    requires |docs| >= 2 && docs[0] != [] && !IsLineTerminator(docs[0][|docs[0]| - 1])
    ensures var out := Join(docs, DOCUMENT_MARKER);
            && |docs[0]| + 3 <= |out| && out[..|docs[0]|] == docs[0]
            && out[|docs[0]|..|docs[0]| + 3] == DOCUMENT_MARKER
            && !MarkerAt(out, |docs[0]|)
  {
    assert docs == [docs[0]] + docs[1..];
    JoinCons(docs[0], docs[1..], DOCUMENT_MARKER);
    var out := Join(docs, DOCUMENT_MARKER);
    assert out[|docs[0]| - 1] == docs[0][|docs[0]| - 1];
  }

  /** The `stringData` pass leaves the redacted lines of such a Secret alone. */
  lemma GluedSecretStringDataPass(pre: seq<string>, header: string, key: string, cont: seq<string>)
    requires ':' in key
    requires forall k | 0 <= k < |pre + [header] + ([key] + cont)| :: '\n' !in (pre + [header] + ([key] + cont))[k]
    requires NoHeader(pre + [header], "stringData")
    ensures var first := Join(pre + [header] + [RedactLine(key)], "\n");
            RedactedField(first, "stringData") == first
  {
    var lines := pre + [header] + [RedactLine(key)];
    var all := pre + [header] + ([key] + cont);
    assert all[|pre| + 1] == key;
    RedactLineChars(key);
    RedactedEntryShape(key, "stringData");
    forall k | 0 <= k < |lines| ensures '\n' !in lines[k] && !IsHeader(lines[k], "stringData") {
      if k <= |pre| {
        assert lines[k] == all[k] == (pre + [header])[k];
      }
    }
    SplitJoin(lines, '\n');
    RedactedFieldWithoutHeader(Join(lines, "\n"), "stringData");
  }
}
