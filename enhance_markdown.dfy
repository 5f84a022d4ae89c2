/**
 * The parts of the article-formatting helper that do not talk to the
 * language model: the list of sources offered to it, and the clean-up of
 * its answer (trimming, and removing a code fence wrapped around the whole
 * answer).
 */
module EnhanceMarkdown {
  import opened Basics
  import opened Text
  import opened ContentStore

  /** The helper's failure: the model gave no content. */
  datatype EnhanceError = NoResponse

  const MarkdownFence: string := "```markdown"
  const Fence: string := "```"

  /** `- title: url` for each evidence item. */
  function EvidenceLines(evidence: seq<Evidence>): (r: seq<string>)
    ensures |r| == |evidence|
    ensures forall i :: 0 <= i < |r| ==> r[i] == "- " + evidence[i].title + ": " + evidence[i].url
  {
    if evidence == [] then []
    else ["- " + evidence[0].title + ": " + evidence[0].url] + EvidenceLines(evidence[1..])
  }

  /** `- url` for each source. */
  function SourceLines(sources: seq<string>): (r: seq<string>)
    ensures |r| == |sources|
    ensures forall i :: 0 <= i < |r| ==> r[i] == "- " + sources[i]
  {
    if sources == [] then [] else ["- " + sources[0]] + SourceLines(sources[1..])
  }

  /** The source list offered to the model: the evidence lines, then the source lines, one per line. */
  function SourceList(evidence: seq<Evidence>, sources: seq<string>): string {
    Join(EvidenceLines(evidence) + SourceLines(sources), '\n')
  }

  predicate NoNewline(s: string) {
    '\n' !in s
  }

  /**
   * When no title or address holds a line break, the source list reads back
   * line by line as exactly the evidence lines followed by the source lines.
   */
  lemma SourceListLines(evidence: seq<Evidence>, sources: seq<string>)
    requires forall i :: 0 <= i < |evidence| ==> NoNewline(evidence[i].title) && NoNewline(evidence[i].url)
    requires forall i :: 0 <= i < |sources| ==> NoNewline(sources[i])
    requires evidence != [] || sources != []
    ensures Split(SourceList(evidence, sources), '\n') == EvidenceLines(evidence) + SourceLines(sources)
  {
    var lines := EvidenceLines(evidence) + SourceLines(sources);
    forall i | 0 <= i < |lines| ensures '\n' !in lines[i] {
      if i < |evidence| {
        var e := evidence[i];
        assert lines[i] == "- " + e.title + ": " + e.url;
      } else {
        assert lines[i] == "- " + sources[i - |evidence|];
      }
    }
    SplitJoin(lines, '\n');
  }

  /** No evidence and no sources give an empty list. */
  lemma SourceListEmpty()
    ensures SourceList([], []) == ""
  {
  }

  /** `s.replace(/^<fence>\n?/, '')` for a string that starts with `fence`. */
  function DropOpening(s: string, fence: string): (r: string)
    requires StartsWith(s, fence)
    ensures |r| <= |s| - |fence|
    // the fence and the line break after it, if there is one, are what is cut
    ensures s == fence + "\n" + r || (s == fence + r && (r == [] || r[0] != '\n'))
  {
    var rest := s[|fence|..];
    assert s == fence + rest;
    if rest != [] && rest[0] == '\n' then
      assert rest == "\n" + rest[1..];
      rest[1..]
    else rest
  }

  /** `s.replace(/\n?```$/, '')`. */
  function DropClosing(s: string): (r: string)
    ensures |r| <= |s|
    ensures !EndsWith(s, Fence) ==> r == s
    // the closing fence and the line break before it, if there is one, are what is cut
    ensures EndsWith(s, Fence) ==>
      s == r + "\n" + Fence || (s == r + Fence && (r == [] || r[|r| - 1] != '\n'))
  {
    if EndsWith(s, Fence) then
      var t := s[..|s| - |Fence|];
      assert s == t + Fence;
      if t != [] && t[|t| - 1] == '\n' then
        assert t == t[..|t| - 1] + "\n";
        t[..|t| - 1]
      else t
    else s
  }

  /** Removes one wrapping fence, tagged `markdown` or plain; a string that starts with no fence is kept. */
  function Unfence(s: string): (r: string)
    ensures |r| <= |s|
    ensures !StartsWith(s, Fence) ==> r == s
  {
    if StartsWith(s, MarkdownFence) then DropClosing(DropOpening(s, MarkdownFence))
    else if StartsWith(s, Fence) then DropClosing(DropOpening(s, Fence))
    else s
  }

  /**
   * What `Unfence` cuts from a fenced string: in front, the fence (tagged
   * `markdown` whenever the string starts so) with its line break if any;
   * at the end, nothing, or a closing fence with the line break before it
   * if any. What is left is the text in between.
   */
  lemma UnfenceParts(s: string) returns (opening: string, closing: string)
    requires StartsWith(s, Fence)
    ensures s == opening + Unfence(s) + closing
    ensures var fence := if StartsWith(s, MarkdownFence) then MarkdownFence else Fence;
      opening == fence || opening == fence + "\n"
    ensures closing == [] || closing == Fence || closing == "\n" + Fence
  {
    var fence := if StartsWith(s, MarkdownFence) then MarkdownFence else Fence;
    var middle := DropOpening(s, fence);
    var r := DropClosing(middle);
    assert r == Unfence(s);
    opening := OpeningPart(s, fence, middle);
    closing := ClosingPart(middle, r);
    Regroup(s, opening, middle, r, closing);
  }

  lemma Regroup(s: string, opening: string, middle: string, r: string, closing: string)
    requires s == opening + middle && middle == r + closing
    ensures s == opening + r + closing
  {
  }

  lemma OpeningPart(s: string, fence: string, middle: string) returns (opening: string)
    requires StartsWith(s, fence) && middle == DropOpening(s, fence)
    ensures s == opening + middle && (opening == fence || opening == fence + "\n")
  {
    if s == fence + "\n" + middle {
      opening := fence + "\n";
    } else {
      opening := fence;
    }
  }

  lemma ClosingPart(middle: string, r: string) returns (closing: string)
    requires r == DropClosing(middle)
    ensures middle == r + closing && (closing == [] || closing == Fence || closing == "\n" + Fence)
  {
    if !EndsWith(middle, Fence) {
      closing := [];
      assert middle == r + [];
    } else if middle == r + "\n" + Fence {
      closing := "\n" + Fence;
    } else {
      closing := Fence;
    }
  }

  /** Trim, remove one wrapping fence, trim again. */
  function CleanResponse(content: string): (r: string)
    ensures IsTrimmed(r)
    ensures !StartsWith(Trim(content), Fence) ==> r == Trim(content)
  {
    var enhanced := Trim(content);
    TrimmedFixed(enhanced);
    Trim(Unfence(enhanced))
  }

  /**
   * The helper after the model has answered: `content` is the model's
   * content, `None` when it gave none.
   */
  function Enhance(content: Option<string>): (r: Result<string, EnhanceError>)
    ensures r.Err? <==> content.None? || content.value == []
    ensures r.Ok? ==> IsTrimmed(r.value)
  {
    if content.None? || content.value == [] then Err(NoResponse) else Ok(CleanResponse(content.value))
  }

  /** Dropping the opening `fence` line leaves the body and the closing fence. */
  lemma OpeningDropped(fence: string, body: string)
    requires fence == MarkdownFence || fence == Fence
    ensures StartsWith(fence + "\n" + body + "\n" + Fence, fence)
    ensures DropOpening(fence + "\n" + body + "\n" + Fence, fence) == body + "\n" + Fence
  {
    var s := fence + "\n" + body + "\n" + Fence;
    assert s[..|fence|] == fence;
    assert s[|fence|..] == "\n" + body + "\n" + Fence;
  }

  /** Dropping the closing fence line leaves the body. */
  lemma ClosingDropped(body: string)
    ensures DropClosing(body + "\n" + Fence) == body
  {
    var s := body + "\n" + Fence;
    assert s[|s| - |Fence|..] == Fence;
    assert s[..|s| - |Fence|] == body + "\n";
  }

  /** Dropping the opening `fence` line and the closing fence line leaves the body. */
  lemma DropFences(fence: string, body: string)
    requires fence == MarkdownFence || fence == Fence
    ensures StartsWith(fence + "\n" + body + "\n" + Fence, fence)
    ensures DropClosing(DropOpening(fence + "\n" + body + "\n" + Fence, fence)) == body
  {
    OpeningDropped(fence, body);
    ClosingDropped(body);
  }

  /** A body wrapped in a `markdown` fence comes back as the trimmed body. */
  lemma UnwrapMarkdownFence(body: string)
    ensures CleanResponse(MarkdownFence + "\n" + body + "\n" + Fence) == Trim(body)
  {
    var s := MarkdownFence + "\n" + body + "\n" + Fence;
    assert !IsSpace(s[0]) && !IsSpace(s[|s| - 1]);
    TrimmedFixed(s);
    DropFences(MarkdownFence, body);
  }

  /** A body wrapped in a plain fence comes back as the trimmed body. */
  lemma UnwrapPlainFence(body: string)
    ensures CleanResponse(Fence + "\n" + body + "\n" + Fence) == Trim(body)
  {
    var s := Fence + "\n" + body + "\n" + Fence;
    assert !IsSpace(s[0]) && !IsSpace(s[|s| - 1]);
    TrimmedFixed(s);
    assert !StartsWith(s, MarkdownFence) by {
      assert s[3] == '\n' && MarkdownFence[3] == 'm';
    }
    DropFences(Fence, body);
  }

  /** Cleaning is idempotent on answers that do not start with a fence. */
  lemma CleanUnfencedIdempotent(content: string)
    requires !StartsWith(Trim(content), Fence)
    ensures CleanResponse(CleanResponse(content)) == CleanResponse(content)
  {
    TrimmedFixed(Trim(content));
  }
}
