# Update-availability coordinator of the Sparkle Catalyst example, in Dafny

This project models the part of the AppKit plugin that is the application's own
logic rather than calls into the Sparkle framework:

- **the observer registry of `AppUpdater`**: a list of observers without
  duplicates, compared by object identity, with add and remove;
- **the gated broadcast** `notifyUpdateAvailableObservers`: no call unless both
  `latestVersion` and `latestBuild` are non-empty, otherwise one call per
  registered observer in list order, all with the same availability flag;
- **the availability decision** `getUpdateIsAvailable`: the installed build
  orders strictly before the latest build under a build comparator, which is a
  parameter (`compare`) since the comparator is Sparkle's own code;
- **the state update of `checkForFeedForUpdate`**: no feed URL or no data
  changes nothing; a parse success overwrites the latest pair and notifies;
- **the feed parser `SparkleFeedParser`**: an XMLParser delegate driven by a
  sequence of events (start element, characters, end element, end of
  document) that tracks the current element, captures `sparkle:version` and
  `sparkle:shortVersionString` text and calls its completion once at the end
  of the document when both were captured.

Files: `wrappers.dfy` (Option), `observer_registry.dfy` (module
`ObserverRegistry`), `feed_parser.dfy` (module `FeedParser`, with the class
`SparkleFeedParser`), `app_updater.dfy` (module `Updater`, with the class
`AppUpdater`).

Observers are Dafny objects (class `Observer`), so identity is reference
equality. Each observer callback is recorded in the ghost field
`AppUpdater.delivered`. Each delegate method of `SparkleFeedParser` is specified
by the function `FeedParser.Step`, and `Parse` by its fold `FeedParser.Run`;
the lemmas about `Run` state what a whole document does. A parse completion is
either installed or nil, and the parser records each call made to it in
`completionCalls`; `AppUpdater.CheckForFeedForUpdate` carries out the body of
its completion (`ApplyParsedVersion`) for each recorded call.

Behaviour of the code worth noting:

- Notification is gated only on non-empty latest fields, not on a change: a
  feed whose build equals the installed one still calls every observer, each
  with the flag false (`Updater.SameBuildStillNotifies`).
- The observer array holds strong references; the model uses only identity.
- There is no parse-error result: a document missing a field, or one XMLParser
  abandons (no end-of-document event), never calls the completion
  (`FeedParser.NoEndDocumentNoCompletion`, `FeedParser.CompletionAtEndOfDocument`).

## Model

| member | source | states |
|---|---|---|
| `ObserverRegistry.AddedIdempotent` | AppKitPlugin/AppUpdater.swift:126 | adding the same observer twice gives the same list as adding it once |
| `ObserverRegistry.AddedPreservesNoDuplicates` | AppKitPlugin/AppUpdater.swift:125-129 | add never puts an identity in the list twice |
| `ObserverRegistry.WithoutMembers` | AppKitPlugin/AppUpdater.swift:131-133 | after removal an object is in the list exactly when it was before and is not the removed observer |
| `ObserverRegistry.WithoutConcat` | AppKitPlugin/AppUpdater.swift:132 | removal distributes over concatenation, so the remaining entries keep their relative order |
| `ObserverRegistry.WithoutAbsent` | AppKitPlugin/AppUpdater.swift:132 | removing an observer that is not registered changes nothing |
| `ObserverRegistry.WithoutPreservesNoDuplicates` | AppKitPlugin/AppUpdater.swift:131-133 | removal never introduces a duplicate |
| `ObserverRegistry.RemoveAtIndex` | AppKitPlugin/AppUpdater.swift:131-133 | in a duplicate-free list, removing the observer at index k leaves exactly the entries before and after k, in order |
| `ObserverRegistry.RemoveUndoesAdd` | AppKitPlugin/AppUpdater.swift:125-133 | removing an observer just added (while absent) restores the previous list |
| `ObserverRegistry.RemoveIdempotent` | AppKitPlugin/AppUpdater.swift:131-133 | removing twice gives the same list as removing once |
| `Updater.AppUpdater.AddAppUpdateObserver` | AppKitPlugin/AppUpdater.swift:125-129 | keeps the list duplicate-free; the new list is `Added(old list, observer)`: the observer appended at the end when its identity is absent, the list unchanged otherwise |
| `Updater.AppUpdater.RemoveAppUpdateObserver` | AppKitPlugin/AppUpdater.swift:131-133 | keeps the list duplicate-free; the new list is the old one without every entry of that identity, and nothing else leaves it |
| `Updater.AvailabilityIsStrict` | AppKitPlugin/AppUpdater.swift:135-138 | under a consistent comparator (each build compares the same as itself, swapping the arguments swaps the answer), equal builds give no update and availability holds in at most one direction, exactly when the latest build orders after the installed one |
| `Updater.BroadcastInOrder` | AppKitPlugin/AppUpdater.swift:148-154 | one pass over the list issues as many calls as there are observers, the k-th to observer k, all with the same flag, version and build |
| `Updater.BroadcastOncePerObserver` | AppKitPlugin/AppUpdater.swift:148-154 | over a duplicate-free list, every registered observer is called exactly once and any other object never |
| `Updater.NotificationGate` | AppKitPlugin/AppUpdater.swift:140-144 | the notification issues no call exactly when latestVersion or latestBuild is empty or no observer is registered |
| `Updater.NotificationContents` | AppKitPlugin/AppUpdater.swift:146-154 | past the gate, observer k gets call k with the flag "comparator ranks installedBuild before latestBuild" and the current latestVersion and latestBuild |
| `Updater.SameBuildStillNotifies` | AppKitPlugin/AppUpdater.swift:140-154 | a latest build equal to the installed one still calls every observer, each with the flag false |
| `Updater.AppUpdater.NotifyUpdateAvailableObservers` | AppKitPlugin/AppUpdater.swift:140-155 | appends to the callback log exactly the gated notification for the current list, builds and versions |
| `Updater.InfoString` | AppKitPlugin/AppUpdater.swift:28-29 | a manifest lookup yields the string stored under the key, and "" when there is no dictionary, no such key or a non-string value |
| `Updater.AppUpdater.constructor` | AppKitPlugin/AppUpdater.swift:15-32 | starts with no observers and empty latest fields; installed version and build are the manifest strings, "" when missing |
| `Updater.AppUpdater.ApplyParsedVersion` | AppKitPlugin/AppUpdater.swift:80-89 | the parse completion overwrites latestVersion and latestBuild with the parsed pair and then notifies with them |
| `Updater.AppUpdater.CheckForFeedForUpdate` | AppKitPlugin/AppUpdater.swift:66-91 | no feed URL or nil data leaves the latest pair and the callback log unchanged; otherwise each completion call of the parser overwrites the pair and triggers one gated notification |
| `Updater.AppUpdater.ApplyCompletionCalls` | AppKitPlugin/AppUpdater.swift:80-89 | after the completion has run for each recorded call, the latest pair is the last call's pair (unchanged when there was none) and the log holds one gated notification per call, in order |
| `Updater.FeedDocumentPipeline` | AppKitPlugin/AppUpdater.swift:72-89 | for a finished document, the latest pair becomes exactly (shortVersionString capture, version capture) followed by one gated notification when both were captured, and nothing changes otherwise |
| `FeedParser.SparkleFeedParser.constructor` | AppKitPlugin/AppUpdater+SparkleFeedParser.swift:16-20 | a new delegate has an empty current element, no completion and no captures |
| `FeedParser.SparkleFeedParser.Parse` | AppKitPlugin/AppUpdater+SparkleFeedParser.swift:22-28 | installs the given completion before any event, then applies the document's events in order |
| `FeedParser.SparkleFeedParser.DidStartElement` | AppKitPlugin/AppUpdater+SparkleFeedParser.swift:32-34 | sets the current element to the element's name and changes nothing else |
| `FeedParser.SparkleFeedParser.FoundCharacters` | AppKitPlugin/AppUpdater+SparkleFeedParser.swift:36-42 | under sparkle:version the text replaces versionString, under sparkle:shortVersionString it replaces displayVersionString, under any other element nothing changes |
| `FeedParser.SparkleFeedParser.DidEndElement` | AppKitPlugin/AppUpdater+SparkleFeedParser.swift:44-46 | resets the current element to "" whatever element ends |
| `FeedParser.SparkleFeedParser.ParserDidEndDocument` | AppKitPlugin/AppUpdater+SparkleFeedParser.swift:48-55 | when both fields are captured and a completion is installed, records one call with (displayVersionString, versionString); otherwise changes nothing |
| `FeedParser.CurrentElementIsLastMove` | AppKitPlugin/AppUpdater+SparkleFeedParser.swift:32-46 | after any events, the current element is the name of the last start event, or "" if an end event came after it |
| `FeedParser.NoMoveKeepsElement` | AppKitPlugin/AppUpdater+SparkleFeedParser.swift:36-55 | character data and end of document never change the current element |
| `FeedParser.LastCaptureWins` | AppKitPlugin/AppUpdater+SparkleFeedParser.swift:36-42 | a captured field holds the text of the last character chunk that arrived under its element |
| `FeedParser.NoCaptureKeepsField` | AppKitPlugin/AppUpdater+SparkleFeedParser.swift:36-42 | a field with no character data under its element keeps its previous value |
| `FeedParser.IgnoredAfterEnd` | AppKitPlugin/AppUpdater+SparkleFeedParser.swift:36-46 | character data after an end event, even one closing a child inside a field element, is captured by neither field until the next start event |
| `FeedParser.CompletionStaysInstalled` | AppKitPlugin/AppUpdater+SparkleFeedParser.swift:22-24 | no event changes which completion parse installed |
| `FeedParser.NoEndDocumentNoCompletion` | AppKitPlugin/AppUpdater+SparkleFeedParser.swift:48-55 | a document that never reaches its end calls no completion |
| `FeedParser.NilCompletionNeverCalled` | AppKitPlugin/AppUpdater+SparkleFeedParser.swift:22-27 | with a nil completion no call is made, even when both fields are captured |
| `FeedParser.CompletionAtEndOfDocument` | AppKitPlugin/AppUpdater+SparkleFeedParser.swift:48-55 | a finished document calls the completion exactly once if both fields were captured and never otherwise, with version = shortVersionString capture and build = version capture |

## Left out

- Calls into Sparkle: `startUpdater`, `checkForUpdates`, `checkForUpdatesInBackground`, `resetUpdateCycle`, `resetUpdateCycleAfterShortDelay`, the configuration getters and setters, and every `SPUUpdaterDelegate` and `SPUStandardUserDriverDelegate` callback (log-only or a direct call into the framework).
- `SUStandardVersionComparator`: foreign code; the model takes the comparator as a parameter and states under `IsConsistentComparator` what follows from it comparing consistently; transitivity is not needed by any property here and is not stated.
- `fetchSparkleFeed` and `URLSession`: network I/O; the fetch result is a parameter of `CheckForFeedForUpdate` (`None` for a failed fetch), and so is the feed URL from Sparkle's configuration.
- `DispatchQueue.main.async`: the deferred notification is modelled as running immediately after the completion that scheduled it; threads are not modelled.
- `[weak self]` captures: deallocation of the updater or the parser while a fetch is in flight is not modelled.
- XMLParser's tokenizing: a document is given as the sequence of delegate events; element attributes, namespaces and parse errors other than an unfinished document are not modelled.
- Logging and `print` output, and the parser's `deinit`.
- What an observer's callback does is not modelled: it cannot re-enter the updater, and the broadcast iterates over a copy of the list, as Swift's value-typed array does.
- `updaterRequestedRelaunch` and the relaunch code, which are commented out in the source.
- The forwarding layer `AppKitPlugin.swift`, the plugin loading in `AppDelegate.swift`, the UI in `ViewController.swift` and the debug descriptions in `Sparkle+Extensions.swift`.
