/**
 * The XMLParser delegate that pulls the display version and the build out of
 * a Sparkle feed (AppKitPlugin/AppUpdater+SparkleFeedParser.swift). XMLParser
 * itself is not modelled: a document is the sequence of delegate callbacks it
 * would issue. A document that XMLParser cannot read is a sequence without
 * EndDocument, since parserDidEndDocument is only issued for a finished parse.
 */
module FeedParser {
  import opened Wrappers

  /** One XMLParserDelegate callback. */
  datatype XmlEvent =
    | StartElement(name: string)
    | Characters(text: string)
    | EndElement(name: string)
    | EndDocument

  /** The arguments of one call of the parse completion, `(version, build)`. */
  datatype ParsedVersion = ParsedVersion(version: string, build: string)

  const VersionElement: string := "sparkle:version"
  const ShortVersionElement: string := "sparkle:shortVersionString"

  /**
   * The delegate's fields. The completion closure is either installed or nil;
   * completionCalls records, in order, every call made to it.
   */
  datatype FeedState = FeedState(
    currentElement: string,
    completionInstalled: bool,
    displayVersionString: Option<string>,
    versionString: Option<string>,
    completionCalls: seq<ParsedVersion>)

  /** A fresh delegate that `parse` has given a completion (or nil). */
  function Initial(completionInstalled: bool): FeedState {
    FeedState("", completionInstalled, None, None, [])
  }

  /** The effect of one callback on the delegate's fields. */
  function Step(s: FeedState, e: XmlEvent): FeedState {
    match e
    case StartElement(name) => s.(currentElement := name)
    case Characters(text) =>
      if s.currentElement == VersionElement then s.(versionString := Some(text))
      else if s.currentElement == ShortVersionElement then s.(displayVersionString := Some(text))
      else s
    case EndElement(_) => s.(currentElement := "")
    case EndDocument =>
      if s.displayVersionString.Some? && s.versionString.Some? && s.completionInstalled then
        s.(completionCalls := s.completionCalls
                               + [ParsedVersion(s.displayVersionString.value, s.versionString.value)])
      else s
  }

  /** The delegate's fields after the callbacks `events`, in order. */
  function Run(s: FeedState, events: seq<XmlEvent>): FeedState
    decreases |events|
  {
    if events == [] then s else Step(Run(s, events[..|events| - 1]), events[|events| - 1])
  }

  /** Start and end events are the only ones that move `currentElement`. */
  predicate MovesElement(e: XmlEvent) {
    e.StartElement? || e.EndElement?
  }

  /** Capture of the field that character data under element `field` replaces. */
  function Captured(s: FeedState, field: string): Option<string>
    requires field == VersionElement || field == ShortVersionElement
  {
    if field == VersionElement then s.versionString else s.displayVersionString
  }

  /** Event k is character data that arrives while `field` is the current element. */
  ghost predicate CapturesAt(s: FeedState, events: seq<XmlEvent>, k: int, field: string)
    requires 0 <= k < |events|
  {
    events[k].Characters? && Run(s, events[..k]).currentElement == field
  }

  /**
   * `currentElement` is the name of the last start event, or "" when an end
   * event came after it, whatever the nesting.
   */
  lemma {:induction false} CurrentElementIsLastMove(s: FeedState, events: seq<XmlEvent>, k: nat)
    requires k < |events| && MovesElement(events[k])
    requires forall j :: k < j < |events| ==> !MovesElement(events[j])
    ensures Run(s, events).currentElement
            == (if events[k].StartElement? then events[k].name else "")
    decreases |events|
  {
    var n := |events|;
    if k < n - 1 {
      var pre := events[..n - 1];
      forall j | k < j < |pre| ensures !MovesElement(pre[j]) { assert pre[j] == events[j]; }
      CurrentElementIsLastMove(s, pre, k);
    }
  }

  /** Without start or end events, `currentElement` keeps its value. */
  lemma {:induction false} NoMoveKeepsElement(s: FeedState, events: seq<XmlEvent>)
    requires forall j :: 0 <= j < |events| ==> !MovesElement(events[j])
    ensures Run(s, events).currentElement == s.currentElement
    decreases |events|
  {
    if events != [] {
      var pre := events[..|events| - 1];
      forall j | 0 <= j < |pre| ensures !MovesElement(pre[j]) { assert pre[j] == events[j]; }
      NoMoveKeepsElement(s, pre);
    }
  }

  /**
   * Captures overwrite: a field holds the text of the last character chunk that
   * arrived under its element.
   */
  lemma {:induction false} LastCaptureWins(s: FeedState, events: seq<XmlEvent>, k: nat, field: string)
    requires field == VersionElement || field == ShortVersionElement
    requires k < |events| && CapturesAt(s, events, k, field)
    requires forall j :: k < j < |events| ==> !CapturesAt(s, events, j, field)
    ensures Captured(Run(s, events), field) == Some(events[k].text)
    decreases |events|
  {
    var n := |events|;
    var pre := events[..n - 1];
    if k < n - 1 {
      forall j | 0 <= j < |pre| ensures pre[..j] == events[..j] && pre[j] == events[j] { }
      assert CapturesAt(s, pre, k, field);
      forall j | k < j < |pre| ensures !CapturesAt(s, pre, j, field) {
        assert !CapturesAt(s, events, j, field);
      }
      LastCaptureWins(s, pre, k, field);
      assert !CapturesAt(s, events, n - 1, field);
    }
  }

  /** A field that never sees character data under its element keeps its value. */
  lemma {:induction false} NoCaptureKeepsField(s: FeedState, events: seq<XmlEvent>, field: string)
    requires field == VersionElement || field == ShortVersionElement
    requires forall j :: 0 <= j < |events| ==> !CapturesAt(s, events, j, field)
    ensures Captured(Run(s, events), field) == Captured(s, field)
    decreases |events|
  {
    var n := |events|;
    if n > 0 {
      var pre := events[..n - 1];
      forall j | 0 <= j < |pre| ensures pre[..j] == events[..j] && pre[j] == events[j] { }
      forall j | 0 <= j < |pre| ensures !CapturesAt(s, pre, j, field) {
        assert !CapturesAt(s, events, j, field);
      }
      NoCaptureKeepsField(s, pre, field);
      assert !CapturesAt(s, events, n - 1, field);
    }
  }

  /**
   * After an end event, character data is ignored until the next start event,
   * even when the end event closes a child nested inside a field element.
   */
  lemma {:induction false} IgnoredAfterEnd(s: FeedState, events: seq<XmlEvent>, k: nat, j: nat, field: string)
    requires field == VersionElement || field == ShortVersionElement
    requires k < j < |events| && events[k].EndElement?
    requires forall i :: k < i < j ==> !events[i].StartElement?
    ensures !CapturesAt(s, events, j, field)
  {
    var pre := events[..j];
    forall i | k < i < |pre| ensures !MovesElement(pre[i]) || pre[i].EndElement? { }
    var m := LastEnd(pre, k);
    CurrentElementIsLastMove(s, pre, m);
  }

  /** The index of the last end event in events[k..], when no start event follows events[k]. */
  lemma {:induction false} LastEnd(events: seq<XmlEvent>, k: nat) returns (m: nat)
    requires k < |events| && events[k].EndElement?
    requires forall i :: k < i < |events| ==> !events[i].StartElement?
    ensures k <= m < |events| && events[m].EndElement?
    ensures forall i :: m < i < |events| ==> !MovesElement(events[i])
    decreases |events| - k
  {
    var later := NextEnd(events, k + 1);
    if later < |events| {
      m := LastEnd(events, later);
    } else {
      m := k;
    }
  }

  /** The first end event at or after index `from`, or |events| when there is none. */
  lemma {:induction false} NextEnd(events: seq<XmlEvent>, from: nat) returns (m: nat)
    requires from <= |events|
    ensures from <= m <= |events|
    ensures m < |events| ==> events[m].EndElement?
    ensures forall i :: from <= i < m ==> !events[i].EndElement?
    decreases |events| - from
  {
    if from == |events| || events[from].EndElement? {
      m := from;
    } else {
      m := NextEnd(events, from + 1);
    }
  }

  /** `parse` never changes which completion is installed. */
  lemma {:induction false} CompletionStaysInstalled(s: FeedState, events: seq<XmlEvent>)
    ensures Run(s, events).completionInstalled == s.completionInstalled
    decreases |events|
  {
    if events != [] {
      CompletionStaysInstalled(s, events[..|events| - 1]);
    }
  }

  /** Without an end-of-document event, the completion is not called. */
  lemma {:induction false} NoEndDocumentNoCompletion(s: FeedState, events: seq<XmlEvent>)
    requires forall j :: 0 <= j < |events| ==> events[j] != EndDocument
    ensures Run(s, events).completionCalls == s.completionCalls
    decreases |events|
  {
    if events != [] {
      var pre := events[..|events| - 1];
      forall j | 0 <= j < |pre| ensures pre[j] != EndDocument { assert pre[j] == events[j]; }
      NoEndDocumentNoCompletion(s, pre);
    }
  }

  /** A nil completion is never called, whatever the document holds. */
  lemma {:induction false} NilCompletionNeverCalled(s: FeedState, events: seq<XmlEvent>)
    requires !s.completionInstalled
    ensures Run(s, events).completionCalls == s.completionCalls
    decreases |events|
  {
    if events != [] {
      var pre := events[..|events| - 1];
      NilCompletionNeverCalled(s, pre);
      CompletionStaysInstalled(s, pre);
    }
  }

  /**
   * A finished document (its callbacks followed by one EndDocument) calls the
   * completion exactly once when both fields were captured and never
   * otherwise; `version` is the sparkle:shortVersionString capture and `build`
   * the sparkle:version capture.
   */
  lemma {:induction false} CompletionAtEndOfDocument(s: FeedState, body: seq<XmlEvent>)
    requires forall j :: 0 <= j < |body| ==> body[j] != EndDocument
    ensures var t := Run(s, body);
            Run(s, body + [EndDocument]).completionCalls
            == s.completionCalls
               + (if s.completionInstalled && t.displayVersionString.Some? && t.versionString.Some?
                  then [ParsedVersion(t.displayVersionString.value, t.versionString.value)]
                  else [])
  {
    assert (body + [EndDocument])[..|body|] == body;
    NoEndDocumentNoCompletion(s, body);
    CompletionStaysInstalled(s, body);
  }

  /** The delegate object, whose callbacks update its fields as events arrive. */
  class SparkleFeedParser {
    var currentElement: string
    var completionInstalled: bool
    var displayVersionString: Option<string>
    var versionString: Option<string>
    var completionCalls: seq<ParsedVersion>

    /** The fields as one value. */
    function State(): FeedState
      reads this
    {
      FeedState(currentElement, completionInstalled, displayVersionString, versionString, completionCalls)
    }

    constructor ()
      ensures State() == Initial(false)
    {
      currentElement := "";
      completionInstalled := false;
      displayVersionString := None;
      versionString := None;
      completionCalls := [];
    }

    /** Installs the completion, then lets the parser deliver every callback of the document. */
    method Parse(events: seq<XmlEvent>, completion: bool)
      modifies this
      ensures State() == Run(old(State()).(completionInstalled := completion), events)
    {
      completionInstalled := completion;
      ghost var start := State();
      for i := 0 to |events|
        invariant State() == Run(start, events[..i])
      {
        assert events[..i + 1][..i] == events[..i];
        match events[i]
        case StartElement(name) => DidStartElement(name);
        case Characters(text) => FoundCharacters(text);
        case EndElement(name) => DidEndElement(name);
        case EndDocument => ParserDidEndDocument();
      }
      assert events[..|events|] == events;
    }

    method DidStartElement(elementName: string)
      modifies this
      ensures currentElement == elementName
      ensures State() == old(State()).(currentElement := elementName)
    {
      currentElement := elementName;
    }

    method FoundCharacters(text: string)
      modifies this
      ensures old(currentElement) == VersionElement
              ==> State() == old(State()).(versionString := Some(text))
      ensures old(currentElement) == ShortVersionElement
              ==> State() == old(State()).(displayVersionString := Some(text))
      ensures old(currentElement) != VersionElement && old(currentElement) != ShortVersionElement
              ==> State() == old(State())
    {
      if currentElement == VersionElement {
        versionString := Some(text);
      } else if currentElement == ShortVersionElement {
        displayVersionString := Some(text);
      }
    }

    method DidEndElement(elementName: string)
      modifies this
      ensures currentElement == ""
      ensures State() == old(State()).(currentElement := "")
    {
      currentElement := "";
    }

    method ParserDidEndDocument()
      modifies this
      ensures old(displayVersionString.Some? && versionString.Some? && completionInstalled)
              ==> State() == old(State()).(completionCalls := old(completionCalls)
                               + [ParsedVersion(old(displayVersionString.value), old(versionString.value))])
      ensures !old(displayVersionString.Some? && versionString.Some? && completionInstalled)
              ==> State() == old(State())
    {
      if displayVersionString.Some? && versionString.Some? {
        var version, build := displayVersionString.value, versionString.value;
        if completionInstalled {
          completionCalls := completionCalls + [ParsedVersion(version, build)];
        }
      }
    }
  }
}
