/**
 * The normalisation transform: whitespace runs collapsed to one space and the
 * ends stripped; in aggressive mode, characters outside a small allowed set are
 * then deleted and the text is lower-cased. One record in, one record out.
 */
module Normalize {
  import opened Wrappers
  import opened Text
  import opened LineageNodes

  // ---------------------------------------------------------------------------
  // Whitespace

  /**
   * `re.sub(r"\s+", " ", s)`, read left to right: the first whitespace character
   * of a run becomes one space, the rest of the run is dropped. `inRun` says
   * that the previous character was whitespace.
   */
  function CollapseFrom(s: string, inRun: bool): string
    decreases |s|
  {
    if s == [] then []
    else if IsSpace(s[0]) then (if inRun then [] else [' ']) + CollapseFrom(s[1..], true)
    else [s[0]] + CollapseFrom(s[1..], false)
  }

  function Collapse(s: string): string {
    CollapseFrom(s, false)
  }

  /** The only whitespace character left is the plain space. */
  predicate SpacesAreBlank(t: string) {
    forall i :: 0 <= i < |t| ==> IsSpace(t[i]) ==> t[i] == ' '
  }

  /** No two whitespace characters stand next to each other. */
  predicate NoAdjacentSpaces(t: string) {
    forall i :: 0 <= i < |t| - 1 ==> !(IsSpace(t[i]) && IsSpace(t[i + 1]))
  }

  /** The shape basic normalisation produces. */
  predicate Normalized(t: string) {
    && SpacesAreBlank(t) && NoAdjacentSpaces(t)
    && (t == [] || (!IsSpace(t[0]) && !IsSpace(t[|t| - 1])))
  }

  /** Putting one character in front keeps the shape when it is a space only before a non-space. */
  lemma ConsShape(c: char, rest: string)
    requires SpacesAreBlank(rest) && NoAdjacentSpaces(rest)
    requires IsSpace(c) ==> c == ' ' && (rest == [] || !IsSpace(rest[0]))
    ensures SpacesAreBlank([c] + rest) && NoAdjacentSpaces([c] + rest)
  {
    var t := [c] + rest;
    assert forall i :: 1 <= i < |t| ==> t[i] == rest[i - 1];
  }

  /** A factor of a text of this shape has the shape too. */
  lemma FactorShape(t: string, a: int, b: int)
    requires 0 <= a <= b <= |t|
    requires SpacesAreBlank(t) && NoAdjacentSpaces(t)
    ensures SpacesAreBlank(t[a..b]) && NoAdjacentSpaces(t[a..b])
  {
    assert forall i :: 0 <= i < b - a ==> t[a..b][i] == t[a + i];
  }

  /** Collapsed text keeps only plain spaces, never two in a row, and none first after a run. */
  lemma {:induction false} CollapseShape(s: string, inRun: bool)
    ensures SpacesAreBlank(CollapseFrom(s, inRun)) && NoAdjacentSpaces(CollapseFrom(s, inRun))
    ensures inRun ==> CollapseFrom(s, inRun) == [] || !IsSpace(CollapseFrom(s, inRun)[0])
    decreases |s|
  {
    if s != [] {
      if IsSpace(s[0]) {
        var rest := CollapseFrom(s[1..], true);
        CollapseShape(s[1..], true);
        if !inRun {
          ConsShape(' ', rest);
        }
      } else {
        var rest := CollapseFrom(s[1..], false);
        CollapseShape(s[1..], false);
        ConsShape(s[0], rest);
      }
    }
  }

  /** Text already of the shape comes through the collapse unchanged. */
  lemma {:induction false} CollapseFixed(t: string, inRun: bool)
    requires SpacesAreBlank(t) && NoAdjacentSpaces(t)
    requires inRun ==> t == [] || !IsSpace(t[0])
    ensures CollapseFrom(t, inRun) == t
    decreases |t|
  {
    if t != [] {
      FactorShape(t, 1, |t|);
      if IsSpace(t[0]) {
        assert |t| > 1 ==> !IsSpace(t[1..][0]);
        CollapseFixed(t[1..], true);
      } else {
        CollapseFixed(t[1..], false);
      }
      assert t == [t[0]] + t[1..];
    }
  }

  /** Basic normalisation: collapse whitespace runs, then strip. */
  function NormalizeBasic(s: string): string {
    Strip(Collapse(s))
  }

  /** Basic output has no whitespace at either end, only plain spaces, and never two in a row. */
  lemma NormalizeBasicShape(s: string)
    ensures Normalized(NormalizeBasic(s))
  {
    var c := Collapse(s);
    CollapseShape(s, false);
    var l := TrimLeft(c);
    FactorShape(c, |c| - |l|, |c|);
    var r := TrimRight(l);
    FactorShape(l, 0, |r|);
  }

  /** Basic normalisation is idempotent. */
  lemma NormalizeBasicIdempotent(s: string)
    ensures NormalizeBasic(NormalizeBasic(s)) == NormalizeBasic(s)
  {
    var t := NormalizeBasic(s);
    NormalizeBasicShape(s);
    CollapseFixed(t, false);
    StripNoSpaceEnds(t);
  }

  /** Two spaces in the input become one: "a \t b" normalises to "a b". */
  lemma NormalizeBasicExample()
    ensures NormalizeBasic("a \t b") == "a b"
  {
    assert !IsSpace('a') && !IsSpace('b') && IsSpace(' ') && IsSpace('\t');
    assert CollapseFrom("b", true) == "b";
    assert CollapseFrom(" b", true) == "b";
    assert CollapseFrom("\t b", true) == "b";
    assert CollapseFrom(" \t b", false) == " b";
    assert Collapse("a \t b") == "a b";
    StripNoSpaceEnds("a b");
  }

  // ---------------------------------------------------------------------------
  // Aggressive mode

  /** The characters `[\w\s.,!?;:-]` keeps: word characters, whitespace and seven punctuation marks. */
  predicate KeepAggressive(c: char) {
    IsWordChar(c) || IsSpace(c) || c == '.' || c == ',' || c == '!' || c == '?' || c == ';' || c == ':' || c == '-'
  }

  /** `re.sub(r"[^\w\s.,!?;:-]", "", s)`: every character outside the kept set is deleted. */
  function RemoveSpecial(s: string): (r: string)
    ensures |r| <= |s|
    ensures forall i :: 0 <= i < |r| ==> KeepAggressive(r[i])
  {
    if s == [] then []
    else if KeepAggressive(s[0]) then [s[0]] + RemoveSpecial(s[1..])
    else RemoveSpecial(s[1..])
  }

  /** Nothing is deleted exactly when every character is already kept. */
  lemma {:induction false} RemoveSpecialIdentity(s: string)
    ensures RemoveSpecial(s) == s <==> forall i :: 0 <= i < |s| ==> KeepAggressive(s[i])
  {
    if s != [] {
      RemoveSpecialIdentity(s[1..]);
      if KeepAggressive(s[0]) {
        assert forall i :: 1 <= i < |s| ==> s[i] == s[1..][i - 1];
        assert s == [s[0]] + s[1..];
      } else {
        assert |RemoveSpecial(s)| < |s|;
      }
    }
  }

  /** The content as the transform rewrites it. */
  function NormalizeContent(s: string, aggressive: bool): string {
    var t := NormalizeBasic(s);
    if aggressive then Lower(RemoveSpecial(t)) else t
  }

  /** Aggressive output keeps only allowed characters and has no upper-case letter. */
  lemma NormalizeAggressiveShape(s: string)
    ensures var r := NormalizeContent(s, true);
            forall i :: 0 <= i < |r| ==> KeepAggressive(r[i]) && !('A' <= r[i] <= 'Z')
  {
    var k := RemoveSpecial(NormalizeBasic(s));
    var r := Lower(k);
    forall i | 0 <= i < |r| ensures KeepAggressive(r[i]) {
      assert r[i] == LowerChar(k[i]);
      assert KeepAggressive(k[i]);
    }
  }

  /** Deleting a character can bring two spaces together again: "a # b" becomes "a  b". */
  lemma NormalizeAggressiveDoubleSpace()
    ensures NormalizeContent("a # b", true) == "a  b"
    ensures !NoAdjacentSpaces(NormalizeContent("a # b", true))
  {
    CollapseAHashB();
    StripNoSpaceEnds("a # b");
    assert NormalizeBasic("a # b") == "a # b";
    RemoveAHashB();
    assert Lower("a  b")[1] == ' ' && Lower("a  b")[2] == ' ';
    assert Lower("a  b") == "a  b";
  }

  lemma CollapseAHashB()
    ensures Collapse("a # b") == "a # b"
  {
    assert !IsSpace('a') && !IsSpace('#') && !IsSpace('b') && IsSpace(' ');
    assert CollapseFrom("b", true) == "b";
    assert CollapseFrom(" b", false) == " b";
    assert CollapseFrom("# b", true) == "# b";
    assert CollapseFrom(" # b", false) == " # b";
  }

  lemma RemoveAHashB()
    ensures RemoveSpecial("a # b") == "a  b"
  {
    assert KeepAggressive('a') && KeepAggressive('b') && KeepAggressive(' ') && !KeepAggressive('#');
    assert RemoveSpecial("b") == "b";
    assert RemoveSpecial(" b") == " b";
    assert RemoveSpecial("# b") == " b";
    assert RemoveSpecial(" # b") == "  b";
  }

  // ---------------------------------------------------------------------------
  // The transform

  datatype NormalizeTransform = NormalizeTransform(aggressive: bool) {
    /** The stage name appended to `transform_chain`. */
    function Name(): (n: string)
      ensures n == "normalize_aggressive" <==> aggressive
      ensures n == "normalize" <==> !aggressive
    {
      if aggressive then "normalize_aggressive" else "normalize"
    }

    /**
     * `transform`: exactly one record, with the same id, source, dataset version
     * and creation time; the rewritten content and its hash; the stage name
     * appended to the chain; `updated_at` set to the clock reading; and
     * `normalization_aggressive` added to the metadata.
     */
    function Transform(ln: LineageNode, hash: string -> string, now: Timestamp): (out: seq<LineageNode>)
      ensures |out| == 1
      ensures out[0].lnId == ln.lnId && out[0].source == ln.source
      ensures out[0].datasetVersion == ln.datasetVersion && out[0].createdAt == ln.createdAt
      ensures out[0].content == NormalizeContent(ln.content, aggressive)
      ensures out[0].contentHash == hash(out[0].content)
      ensures out[0].transformChain == ln.transformChain + [Name()]
      ensures out[0].updatedAt == Some(now)
      ensures out[0].metadata == ln.metadata["normalization_aggressive" := MBool(aggressive)]
    {
      var content := NormalizeContent(ln.content, aggressive);
      [LineageNode(
        lnId := ln.lnId,
        content := content,
        source := ln.source,
        datasetVersion := ln.datasetVersion,
        transformChain := ln.transformChain + [Name()],
        contentHash := hash(content),
        createdAt := ln.createdAt,
        updatedAt := Some(now),
        metadata := ln.metadata["normalization_aggressive" := MBool(aggressive)])]
    }
  }

  /** Normalising an already normalised record (basic mode) leaves its content unchanged. */
  lemma NormalizeTransformStable(ln: LineageNode, hash: string -> string, now: Timestamp, later: Timestamp)
    ensures var t := NormalizeTransform(false);
            var once := t.Transform(ln, hash, now)[0];
            t.Transform(once, hash, later)[0].content == once.content
  {
    NormalizeBasicIdempotent(ln.content);
  }

  // ---------------------------------------------------------------------------
  // Over a list of records

  /**
   * The normalise stage over a list: each record's one normalised record in
   * turn, keeping its id, source and version and appending the normaliser's
   * name to its chain.
   */
  function NormalizeStage(nt: NormalizeTransform, nodes: seq<LineageNode>, hash: string -> string, now: Timestamp): (r: seq<LineageNode>)
    ensures |r| == |nodes|
    ensures forall k :: 0 <= k < |nodes| ==>
              && r[k].lnId == nodes[k].lnId
              && r[k].source == nodes[k].source
              && r[k].datasetVersion == nodes[k].datasetVersion
              && r[k].transformChain == nodes[k].transformChain + [nt.Name()]
  {
    seq(|nodes|, k requires 0 <= k < |nodes| => nt.Transform(nodes[k], hash, now)[0])
  }

  /** The normalise stage over one more record: the earlier output followed by the new record's output. */
  lemma NormalizeStageSnoc(nt: NormalizeTransform, nodes: seq<LineageNode>, i: int, hash: string -> string, now: Timestamp)
    requires 0 <= i < |nodes|
    ensures NormalizeStage(nt, nodes[..i + 1], hash, now) == NormalizeStage(nt, nodes[..i], hash, now) + nt.Transform(nodes[i], hash, now)
  {
    NormalizeStagePrefix(nt, nodes, i, hash, now);
    NormalizeStageLast(nt, nodes, i, hash, now);
  }

  /** The first `i` records of the stage over `i + 1` records are the stage over `i`. */
  lemma NormalizeStagePrefix(nt: NormalizeTransform, nodes: seq<LineageNode>, i: int, hash: string -> string, now: Timestamp)
    requires 0 <= i < |nodes|
    ensures NormalizeStage(nt, nodes[..i + 1], hash, now)[..i] == NormalizeStage(nt, nodes[..i], hash, now)
  {
    assert forall k :: 0 <= k < i ==> nodes[..i + 1][k] == nodes[..i][k];
  }

  /** What follows them is the last record's own output. */
  lemma NormalizeStageLast(nt: NormalizeTransform, nodes: seq<LineageNode>, i: int, hash: string -> string, now: Timestamp)
    requires 0 <= i < |nodes|
    ensures NormalizeStage(nt, nodes[..i + 1], hash, now)[i..] == nt.Transform(nodes[i], hash, now)
  {
    assert nodes[..i + 1][i] == nodes[i];
  }
}
