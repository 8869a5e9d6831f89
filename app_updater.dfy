/**
 * The update-availability coordinator (AppKitPlugin/AppUpdater.swift): the
 * installed version read at construction, the latest version learnt from the
 * feed, the observer list and the gated broadcast to it. Calls into Sparkle,
 * the network and the main queue are left out; observer callbacks are
 * recorded in a ghost log of calls.
 */
module Updater {
  import opened Wrappers
  import opened ObserverRegistry
  import opened FeedParser

  /** Foundation's ComparisonResult. */
  datatype ComparisonResult = OrderedAscending | OrderedSame | OrderedDescending

  /** A build comparator, standing for SUStandardVersionComparator.compareVersion(_:toVersion:). */
  type Comparator = (string, string) -> ComparisonResult

  /**
   * The consistency a version comparator is expected to have: every build
   * compares the same as itself, and swapping the arguments swaps the answer.
   */
  ghost predicate IsConsistentComparator(compare: Comparator) {
    (forall a :: compare(a, a) == OrderedSame) &&
    (forall a, b :: compare(a, b) == OrderedAscending <==> compare(b, a) == OrderedDescending) &&
    (forall a, b :: compare(a, b) == OrderedSame ==> compare(b, a) == OrderedSame)
  }

  /** `getUpdateIsAvailable`: the installed build orders strictly before the latest build. */
  function UpdateIsAvailable(compare: Comparator, installedBuild: string, latestBuild: string): bool {
    compare(installedBuild, latestBuild) == OrderedAscending
  }

  /** Under a consistent comparator, equal builds mean no update, and availability is one-way. */
  lemma AvailabilityIsStrict(compare: Comparator, a: string, b: string)
    requires IsConsistentComparator(compare)
    ensures !UpdateIsAvailable(compare, a, a)
    ensures UpdateIsAvailable(compare, a, b) ==> !UpdateIsAvailable(compare, b, a)
    ensures UpdateIsAvailable(compare, a, b) <==> compare(b, a) == OrderedDescending
  {
  }

  /** One call of `updateIsAvailableDidChange(updateIsAvailable:latestVersion:latestBuild:)`. */
  datatype Callback = UpdateIsAvailableDidChange(
    observer: Observer, updateIsAvailable: bool, latestVersion: string, latestBuild: string)

  /** The calls issued by one pass of the loop over `observers`. */
  function Broadcast(observers: seq<Observer>, available: bool, version: string, build: string): seq<Callback>
    decreases |observers|
  {
    if observers == [] then []
    else Broadcast(observers[..|observers| - 1], available, version, build)
         + [UpdateIsAvailableDidChange(observers[|observers| - 1], available, version, build)]
  }

  /** `notifyUpdateAvailableObservers`: nothing unless both latest fields are non-empty. */
  function Notification(observers: seq<Observer>, compare: Comparator, installedBuild: string,
                        latestVersion: string, latestBuild: string): seq<Callback>
  {
    if latestVersion == "" || latestBuild == "" then []
    else Broadcast(observers, UpdateIsAvailable(compare, installedBuild, latestBuild), latestVersion, latestBuild)
  }

  /** How many calls in `log` went to observer `o`. */
  function CallsTo(log: seq<Callback>, o: Observer): nat
    decreases |log|
  {
    if log == [] then 0
    else CallsTo(log[..|log| - 1], o) + (if log[|log| - 1].observer == o then 1 else 0)
  }

  /** The broadcast calls observer k as its k-th call, each with the same arguments. */
  lemma {:induction false} BroadcastInOrder(observers: seq<Observer>, available: bool, version: string, build: string)
    ensures |Broadcast(observers, available, version, build)| == |observers|
    ensures forall k :: 0 <= k < |observers| ==>
              Broadcast(observers, available, version, build)[k]
              == UpdateIsAvailableDidChange(observers[k], available, version, build)
    decreases |observers|
  {
    if observers != [] {
      BroadcastInOrder(observers[..|observers| - 1], available, version, build);
    }
  }

  /** In a list without duplicates, every registered observer is called exactly once and no other object is. */
  lemma {:induction false} BroadcastOncePerObserver(observers: seq<Observer>, available: bool,
                                                    version: string, build: string, o: Observer)
    requires NoDuplicates(observers)
    ensures CallsTo(Broadcast(observers, available, version, build), o) == if o in observers then 1 else 0
    decreases |observers|
  {
    if observers != [] {
      var n := |observers|;
      var pre := observers[..n - 1];
      var b := Broadcast(observers, available, version, build);
      assert b[..|b| - 1] == Broadcast(pre, available, version, build);
      assert NoDuplicates(pre) by {
        forall i, j | 0 <= i < j < |pre| ensures pre[i] != pre[j] {
          assert pre[i] == observers[i] && pre[j] == observers[j];
        }
      }
      assert observers[n - 1] !in pre by {
        forall i | 0 <= i < |pre| ensures pre[i] != observers[n - 1] { assert pre[i] == observers[i]; }
      }
      assert observers == pre + [observers[n - 1]];
      BroadcastOncePerObserver(pre, available, version, build, o);
    }
  }

  /** The gate: the notification issues no call exactly when a latest field is empty or no one is registered. */
  lemma {:induction false} NotificationGate(observers: seq<Observer>, compare: Comparator, installedBuild: string,
                         latestVersion: string, latestBuild: string)
    ensures Notification(observers, compare, installedBuild, latestVersion, latestBuild) == []
            <==> latestVersion == "" || latestBuild == "" || observers == []
  {
    BroadcastInOrder(observers, UpdateIsAvailable(compare, installedBuild, latestBuild), latestVersion, latestBuild);
  }

  /**
   * Past the gate, observer k receives call k, with the availability flag
   * computed from the two builds and the current latest version and build.
   */
  lemma {:induction false} NotificationContents(observers: seq<Observer>, compare: Comparator, installedBuild: string,
                             latestVersion: string, latestBuild: string)
    requires latestVersion != "" && latestBuild != ""
    ensures var log := Notification(observers, compare, installedBuild, latestVersion, latestBuild);
            |log| == |observers| &&
            forall k :: 0 <= k < |log| ==>
              log[k].observer == observers[k] &&
              (log[k].updateIsAvailable <==> compare(installedBuild, latestBuild) == OrderedAscending) &&
              log[k].latestVersion == latestVersion && log[k].latestBuild == latestBuild
  {
    BroadcastInOrder(observers, UpdateIsAvailable(compare, installedBuild, latestBuild), latestVersion, latestBuild);
  }

  /**
   * The notification is not gated on a change: a feed that reports the build
   * already installed still calls every observer once, with the flag false.
   */
  lemma {:induction false} SameBuildStillNotifies(observers: seq<Observer>, compare: Comparator, build: string, version: string)
    requires IsConsistentComparator(compare)
    requires version != "" && build != ""
    ensures var log := Notification(observers, compare, build, version, build);
            |log| == |observers| && forall k :: 0 <= k < |log| ==> !log[k].updateIsAvailable
  {
    NotificationContents(observers, compare, build, version, build);
  }

  /** The latest (version, build) pair after the completion calls `calls` have each overwritten it. */
  function LatestAfter(latest: ParsedVersion, calls: seq<ParsedVersion>): ParsedVersion {
    if calls == [] then latest else calls[|calls| - 1]
  }

  /** The callbacks issued when each completion call in `calls` has been followed by a notification. */
  function NotificationsFor(observers: seq<Observer>, compare: Comparator, installedBuild: string,
                            calls: seq<ParsedVersion>): seq<Callback>
    decreases |calls|
  {
    if calls == [] then []
    else NotificationsFor(observers, compare, installedBuild, calls[..|calls| - 1])
         + Notification(observers, compare, installedBuild, calls[|calls| - 1].version, calls[|calls| - 1].build)
  }

  /**
   * The whole pipeline for a finished feed document: when both fields were
   * captured, the latest pair becomes exactly (shortVersionString, version)
   * and one gated notification follows; otherwise nothing changes.
   */
  lemma {:induction false} FeedDocumentPipeline(observers: seq<Observer>, compare: Comparator, installedBuild: string,
                             latest: ParsedVersion, body: seq<XmlEvent>)
    requires forall j :: 0 <= j < |body| ==> body[j] != EndDocument
    ensures var t := Run(Initial(true), body);
            var calls := Run(Initial(true), body + [EndDocument]).completionCalls;
            if t.displayVersionString.Some? && t.versionString.Some? then
              LatestAfter(latest, calls) == ParsedVersion(t.displayVersionString.value, t.versionString.value) &&
              NotificationsFor(observers, compare, installedBuild, calls)
              == Notification(observers, compare, installedBuild, t.displayVersionString.value, t.versionString.value)
            else
              LatestAfter(latest, calls) == latest && NotificationsFor(observers, compare, installedBuild, calls) == []
  {
    CompletionAtEndOfDocument(Initial(true), body);
    var calls := Run(Initial(true), body + [EndDocument]).completionCalls;
    if calls != [] {
      assert calls[..|calls| - 1] == [];
    }
  }

  /** A string value from the application's Info.plist; other value types are not strings. */
  datatype PlistValue = PlistString(text: string) | PlistOther

  /** `Bundle.main.infoDictionary?[key] as? String ?? ""`. */
  function InfoString(info: Option<map<string, PlistValue>>, key: string): (r: string)
    ensures r != "" ==> info.Some? && key in info.value && info.value[key] == PlistString(r)
    ensures info.Some? && key in info.value && info.value[key].PlistString? ==> r == info.value[key].text
  {
    match info
    case None => ""
    case Some(dictionary) =>
      if key in dictionary && dictionary[key].PlistString? then dictionary[key].text else ""
  }

  class AppUpdater {
    var observers: seq<Observer>
    var latestVersion: string
    var latestBuild: string
    const installedVersion: string
    const installedBuild: string
    const compare: Comparator
    /** Every observer callback issued so far, in order. */
    ghost var delivered: seq<Callback>

    /** The observer list holds each identity at most once. */
    ghost predicate Valid()
      reads this
    {
      NoDuplicates(observers)
    }

    /** `init`: the installed version and build come from the manifest, "" when missing. */
    constructor (info: Option<map<string, PlistValue>>, compare: Comparator)
      ensures Valid()
      ensures observers == [] && latestVersion == "" && latestBuild == "" && delivered == []
      ensures installedVersion == InfoString(info, "CFBundleShortVersionString")
      ensures installedBuild == InfoString(info, "CFBundleVersion")
      ensures this.compare == compare
    {
      installedVersion := InfoString(info, "CFBundleShortVersionString");
      installedBuild := InfoString(info, "CFBundleVersion");
      this.compare := compare;
      observers := [];
      latestVersion := "";
      latestBuild := "";
      delivered := [];
    }

    method AddAppUpdateObserver(observer: Observer)
      requires Valid()
      modifies this`observers
      ensures Valid()
      ensures observers == Added(old(observers), observer)
    {
      if observer !in observers {
        AddedPreservesNoDuplicates(observers, observer);
        observers := observers + [observer];
      }
    }

    method RemoveAppUpdateObserver(observer: Observer)
      requires Valid()
      modifies this`observers
      ensures Valid()
      ensures observers == Without(old(observers), observer)
      ensures observer !in observers
      ensures forall o :: o in observers <==> o in old(observers) && o != observer
    {
      WithoutPreservesNoDuplicates(observers, observer);
      WithoutMembers(observers, observer);
      observers := Without(observers, observer);
    }

    method NotifyUpdateAvailableObservers()
      modifies this`delivered
      ensures delivered == old(delivered) + Notification(observers, compare, installedBuild, latestVersion, latestBuild)
    {
      if latestVersion == "" || latestBuild == "" {
        return;
      }
      var updateIsAvailable := UpdateIsAvailable(compare, installedBuild, latestBuild);
      var snapshot := observers;
      for i := 0 to |snapshot|
        invariant delivered == old(delivered) + Broadcast(snapshot[..i], updateIsAvailable, latestVersion, latestBuild)
      {
        assert snapshot[..i + 1][..i] == snapshot[..i];
        delivered := delivered + [UpdateIsAvailableDidChange(snapshot[i], updateIsAvailable, latestVersion, latestBuild)];
      }
      assert snapshot[..|snapshot|] == snapshot;
    }

    /** The parse completion given in `checkForFeedForUpdate`: store the pair, then notify. */
    method ApplyParsedVersion(parsed: ParsedVersion)
      modifies this`latestVersion, this`latestBuild, this`delivered
      ensures latestVersion == parsed.version && latestBuild == parsed.build
      ensures delivered == old(delivered)
                           + Notification(observers, compare, installedBuild, parsed.version, parsed.build)
    {
      latestVersion := parsed.version;
      latestBuild := parsed.build;
      NotifyUpdateAvailableObservers();
    }

    /**
     * `checkForFeedForUpdate` once the fetch has completed: no feed URL or no
     * data changes nothing; otherwise every call the parser makes to its
     * completion overwrites the latest pair and notifies.
     */
    method CheckForFeedForUpdate(feedURL: Option<string>, data: Option<seq<XmlEvent>>)
      modifies this`latestVersion, this`latestBuild, this`delivered
      ensures feedURL.None? || data.None? ==>
                latestVersion == old(latestVersion) && latestBuild == old(latestBuild) && delivered == old(delivered)
      ensures feedURL.Some? && data.Some? ==>
                var calls := Run(Initial(true), data.value).completionCalls;
                ParsedVersion(latestVersion, latestBuild)
                == LatestAfter(ParsedVersion(old(latestVersion), old(latestBuild)), calls) &&
                delivered == old(delivered) + NotificationsFor(observers, compare, installedBuild, calls)
    {
      if feedURL.None? || data.None? {
        return;
      }
      var parser := new SparkleFeedParser();
      parser.Parse(data.value, true);
      assert Initial(false).(completionInstalled := true) == Initial(true);
      ApplyCompletionCalls(parser.completionCalls);
    }

    /** Runs the parse completion once for each call the parser made to it, in order. */
    method ApplyCompletionCalls(calls: seq<ParsedVersion>)
      modifies this`latestVersion, this`latestBuild, this`delivered
      ensures ParsedVersion(latestVersion, latestBuild)
              == LatestAfter(ParsedVersion(old(latestVersion), old(latestBuild)), calls)
      ensures delivered == old(delivered) + NotificationsFor(observers, compare, installedBuild, calls)
    {
      ghost var latest0, log0 := ParsedVersion(latestVersion, latestBuild), delivered;
      for i := 0 to |calls|
        invariant ParsedVersion(latestVersion, latestBuild) == LatestAfter(latest0, calls[..i])
        invariant delivered == log0 + NotificationsFor(observers, compare, installedBuild, calls[..i])
      {
        ghost var done := calls[..i + 1];
        assert done[..i] == calls[..i] && done[i] == calls[i];
        ApplyParsedVersion(calls[i]);
      }
      assert calls[..|calls|] == calls;
    }
  }
}
