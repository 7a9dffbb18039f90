# Verified models of the workspace

A Dafny project that models the logic of an agent workspace with a WASM backend, a browser
front end and a native bridge, and proves what that logic promises. File systems, sockets,
HTTP bodies, clocks and search services appear as parameters: a function from a path to the answer
`readlink` gives, a directory tree, a sequence of frames, or a choice the caller makes at each step.

| module | what it models |
|---|---|
| `PathResolution`, `PathLaws` | The symlink-expanding resolver: a work list against a recursive meaning, canonicity, composition, and what each answer of `readlink` leads to. |
| `WorkspaceVfs`, `WorkspaceLaws`, `BridgePaths` | The project view on top of the resolver, and the bridge's lexical resolver with exactly how the two agree. |
| `Calendar`, `Timestamp`, `Timeline`, `TimelineTicks`, `TimelineLaws` | The commit timeline: era arithmetic against counting days, the timestamp grammar against a printer, greedy clusters against every other grouping in pixels, and the axis ticks. |
| `DotSegments`, `DotRewriting`, `UriReference`, `Redirect`, `RedirectLaws`, `CappedBody` | Reference resolution of RFC 3986 (sections 5.2.2 to 5.2.4 and 5.3) for redirects, each kind of location by its text, and reading a body up to a cap. |
| `InetAton`, `SearchMerge`, `SearchLaws` | Numeric host forms, and the short-circuiting search merge with the order of its sources. |
| `BridgeProtocol`, `BridgeLaws`, `BridgeConnection` | The reconnecting bridge client as a step machine with an invariant over every run, what each event changes, and the class whose methods take those steps. |
| `Conversation`, `ConversationLaws`, `ConversationRepeat`, `ConversationShows`, `Reasoning` | Merging run snapshots into a conversation in place: order, keys, what is shown live, exactly when a second merge changes nothing, and reasoning text that can be taken off again. |
| `ResponseStream`, `ResponseLaws`, `FolderStatus`, `SnapshotVerify` | The streaming poll machine and its error answers, folder summaries, and verification of a cached snapshot. |
| `Strings`, `Collections`, `Wrappers` | The string operations, sequence facts and result types the others share. |

Code that loops or updates fields is a method or a class here, each proved equal to a
specification function; the laws are lemmas about those functions. Some of them say what the functions
come to in literal terms: codes, characters, pixels, texts. `dafny verify dfyconfig.toml`
checks the whole project.

Four laws hold only under a condition:

- A resolved redirect is a fixed point unless the location left the path to a base whose own path
  has dot segments, or all of the URL to a base that ends in white space
  (`Redirect.RedirectsAreFixedPoints`, `Redirect.InheritedDotsStay`, `Redirect.InheritedSpaceIsTrimmed`).
- A second merge of the same snapshot changes nothing unless the two merges take two local messages
  away (`ConversationRepeat.MergeIsIdempotent`, `ConversationRepeat.TwoNoticesAreTakenAway`).
- The two path resolvers agree on paths that never climb above the root on the way; the bridge also
  accepts those that climb out and come back in by the root's own name
  (`BridgePaths.ResolversAgree`, `BridgePaths.ClimbingBackIn`).
- A canonical project path is canonicalised to itself unless a file name in it holds a backslash,
  which the lexical rules read as a separator (`WorkspaceVfs.FixedPointsHaveNoBackslash`,
  `WorkspaceVfs.BackslashIsReadAsSeparator`).

Where the code and its comments differ, the model follows the code: numeric host parts may carry the
plus sign `from_str_radix` accepts (backend/src/web.rs:94-106), and a body frame that fails is handed
out as an error without ending the stream (backend/src/http_client.rs:238-251).

## Model

Beside the laws listed here, some lemmas fix constants, guards and written forms one by one:
`BridgeLaws.UsersActWhileTheyHold`, `BridgeLaws.MessagesArriveWhileHeld`, `BridgeLaws.LoopGoesOn`,
`BridgeLaws.BeginsWithOneUser`, `BridgeLaws.UsersAreCounted`, `BridgeLaws.LoopStopsWithTheLast`,
`TimelineLaws.IntervalsAreMinutes`, `ConversationShows.UpdatesInOrder`,
`ConversationShows.NothingLiveIsShown`, `ConversationShows.KeysAreWritten`,
`InetAton.OneNumberInEachNotation`, `DotRewriting.EndsInParentOfRoot`.

| member | source | states |
|---|---|---|
| PathResolution.Sanitize | backend/src/files.rs:107-165 | The work-list loop ends for every file system and path, and returns what the recursive meaning gives: each link resolved in its parent directory before the rest is looked at, at most 32 links. |
| PathResolution.Examine | backend/src/files.rs:123-161 | One component has the effect the meaning gives it: empty and `.` skipped, `..` pops or escapes, `.spin` reserved, a link expanded, the three not-a-link codes accepted, any other code an error at that path. |
| PathResolution.FollowConcat | backend/src/files.rs:143-155 | Splicing a link's components in front of the work list is resolving them to the end and going on from there. |
| PathResolution.FollowNext | backend/src/files.rs:122-162 | One turn of the loop, from any state, leads where the meaning leads. |
| PathResolution.SmallerBudget | backend/src/files.rs:117-147 | A smaller link allowance gives the same walk, cut short exactly where the allowance runs out. |
| PathResolution.LimitIsExact | backend/src/files.rs:117-147 | The too-many-links error is reported exactly when the meaning, under any larger allowance, follows a 33rd link before it arrives or fails; any other answer is the one a larger allowance gives. |
| PathResolution.NoOtherTooMany | backend/src/files.rs:143-147 | No other failure is reported as too many links. |
| PathResolution.ResolutionIsCanonical | backend/src/files.rs:107-165 | Every result consists of ordinary names, each non-empty prefix was reported not a link, it is relative, and it resolves to itself. |
| PathResolution.FollowCanonical | backend/src/files.rs:116-162 | Every directory the walk stands in is canonical. |
| PathResolution.CanonicalPathStays | backend/src/files.rs:122-164 | Any canonical path resolves to itself without following a link, even when none may be followed. |
| PathResolution.NameDoesNotMatter | backend/src/files.rs:124-160 | The requested path is used in error texts only: nothing else in a walk depends on it. |
| PathResolution.ResolutionComposes | backend/src/files.rs:107-165 | `a/b` resolves to a path exactly when `a` resolves, its result joined to `b` resolves to that path, and the two runs together follow at most 32 links. |
| PathLaws.OneMoreName | backend/src/files.rs:148-160 | Below a resolved path, a name for which `readlink` answers `INVAL`, `NOENT` or `NOTDIR` resolves to itself; `ACCES` and `PERM` are a refused permission at that path, and any other code an I/O error with that code. |
| PathLaws.OneMoreLink | backend/src/files.rs:137-147 | Below a resolved path, a link with an absolute target escapes; with any other it resolves as the target does in the directory holding the link, one of the 32 links later. |
| PathLaws.SpecialComponents | backend/src/files.rs:123-134 | Below a resolved path, an empty component and `.` stay there, `..` at the root escapes, and `.spin` is reserved. |
| PathLaws.UpAgain | backend/src/files.rs:127-131 | `..` after any name that is no link leads back to where the name was looked up. |
| PathLaws.AbsoluteEscapes | backend/src/files.rs:107-115 | An absolute path is refused as an escape. |
| PathLaws.ThirtyTwoLinks | backend/src/files.rs:143-147 | Going through `n` links succeeds exactly when `n` is at most 32, and is refused as too many levels otherwise. |
| WorkspaceVfs.NormalizeVfsPath | crates/core/src/vfs.rs:103-120 | The normalising loop computes the lexical meaning: backslashes read as slashes, dot segments worked off, an escape refused. |
| WorkspaceVfs.WorkspacePathIsIdempotent | crates/core/src/vfs.rs:103-129 | An accepted project path consists of ordinary names, never `.spin`, without a backslash, and is accepted again unchanged. |
| WorkspaceVfs.WorkspacePathKeeps | crates/core/src/vfs.rs:103-129 | A path of ordinary names without a backslash passes the lexical rules unchanged. |
| WorkspaceVfs.RejoinsToResolution | backend/src/files.rs:569-593 | `canonicalize` succeeds exactly when the located path resolves inside the base, and what it returns, joined to the base again, is that resolution. |
| WorkspaceVfs.CanonicalizeIsIdempotent | backend/src/files.rs:672-689 | A canonical project path without a backslash is canonicalised to itself, whatever the base. |
| WorkspaceVfs.FixedPointsHaveNoBackslash | backend/src/files.rs:672-689 | Unless its own lookup follows a link, a canonical project path is a fixed point exactly when no file name in it holds a backslash. |
| WorkspaceVfs.BackslashIsReadAsSeparator | backend/src/files.rs:672-689 | A link to a file named by a backslash is canonicalised to a path that denotes the root the second time. |
| WorkspaceLaws.LexicalIsResolution | crates/core/src/vfs.rs:103-120 | Without links, the lexical rules accept a relative path that mentions neither a backslash nor `.spin` exactly when the symlink-aware resolver does, with the same result. |
| WorkspaceLaws.BackslashIsSlash | crates/core/src/vfs.rs:103-106 | A backslash anywhere in a path is read as a slash. |
| WorkspaceLaws.LeadingSlashIsDropped | crates/core/src/vfs.rs:103-120 | A leading slash does not matter to the lexical rules. |
| WorkspaceLaws.ReservedIsRefused | crates/core/src/vfs.rs:122-129 | A normalised path is a project path exactly when `.spin` is none of its segments; every refusal is an escape. |
| WorkspaceLaws.CanonicalizeIsExact | backend/src/files.rs:569-593 | For a resolved base, an accepted path is canonicalised to `path` exactly when it resolves, below the base, to `path` below the base; otherwise the resolver's error, or an escape if it resolves elsewhere. |
| BridgePaths.NormalizeJoined | bridge/src/paths.rs:34-46 | The loop over the joined path's components collapses `.` and `..`, the root having no parent. |
| BridgePaths.ResolveFileInRoot | bridge/src/paths.rs:48-63 | Refuses empty, absolute, reserved and escaping paths in that order, and otherwise returns the collapsed join. |
| BridgePaths.LexicalResult | bridge/src/paths.rs:34-46 | On a canonical root the collapsed join is the path worked off on top of the root. |
| BridgePaths.FileInRootIsExact | bridge/src/paths.rs:34-63 | On a canonical root, an acceptable path is reduced to the names it climbs and the names it ends below; it gives the file there if it ends in the root, and the escape error if not. |
| BridgePaths.AcceptedLiesInRoot | bridge/src/paths.rs:55-62 | For every root and path, an accepted file lies in the root. |
| BridgePaths.SiblingEscapes | bridge/src/paths.rs:55-62 | Climbing out of any canonical root and down to a sibling with another name is refused as escaping. |
| BridgePaths.RootsAreCollapsed | bridge/src/paths.rs:55-62 | A root that opens with `.` or goes through `..` accepts no file at all: the code asks for a collapsed root. |
| BridgePaths.LinkFreeWalk | backend/src/files.rs:107-165 | Without links the symlink-aware walk arrives exactly when no segment is reserved and it never climbs above its start, and then where the lexical collapse does, on any base. |
| BridgePaths.ResolversAgree | bridge/src/paths.rs:34-63 | Without links: `sanitize` accepts a non-empty path exactly when the bridge does and it never climbs above the root on the way; then the bridge's file is the canonical root followed by the result. |
| BridgePaths.ClimbingBackIn | bridge/src/paths.rs:34-63 | For every root, climbing out and back in by the root's name is accepted by the bridge and refused by `sanitize`. |
| Calendar.NextDayNumber | frontend/src/git_timeline.rs:210-217 | Successive calendar dates, by month lengths and the leap rule, have successive era-formula numbers, in every year. |
| Calendar.CountedDayNumber | frontend/src/git_timeline.rs:210-217 | The date reached by counting any number of days from 1970-01-01, forwards or backwards, has that number. |
| Calendar.DayNumberCounts | frontend/src/git_timeline.rs:140-152 | Every valid date is reached by counting its number of days and by no other count. |
| Calendar.DayNumberIsMonotone | frontend/src/git_timeline.rs:210-217 | Day numbers are ordered exactly as the dates are, so distinct dates never collide. |
| Timestamp.DateParsesWhatItPrints | frontend/src/git_timeline.rs:123-155 | The date part is accepted exactly when it is the print of a valid calendar date with a four-digit year. |
| Timestamp.ParsesWhatItPrints | frontend/src/git_timeline.rs:119-223 | Printing any valid date, time, optional fraction and `Z` or offset, and parsing the text, gives the UTC milliseconds of days counted from the epoch. |
| Timestamp.ParsedStamp | frontend/src/git_timeline.rs:119-223 | Every accepted text is the print of a valid stamp. |
| Timestamp.ParserIsExact | frontend/src/git_timeline.rs:119-223 | A text parses to a value exactly when it is the print of a valid stamp that denotes that instant, its digits after the point counting tenths, hundredths and so on. |
| Timestamp.FractionIsPlaces | frontend/src/git_timeline.rs:206-221 | The digits after the point count tenths, hundredths and so on, one place each. |
| Timestamp.EpochParses | frontend/src/git_timeline.rs:119-223 | `1970-01-01T00:00:00Z` is the instant zero. |
| TimelineTicks.Step | frontend/src/git_timeline.rs:50-68 | The chosen step is positive and cuts the span into at most the target number of pieces. |
| TimelineTicks.DrawTicks | frontend/src/git_timeline.rs:46-79 | Draws a lone tick for a single instant, the multiples of the step on the axis in order, or the two ends when there is none. |
| TimelineTicks.DrawMultiples | frontend/src/git_timeline.rs:69-74 | Stepping from the first multiple not before the start yields exactly the multiples on the axis. |
| TimelineTicks.TicksFitTheAxis | frontend/src/git_timeline.rs:46-79 | There are between one and eleven ticks, each on the axis in time and in position. |
| TimelineLaws.RoomForTicks | frontend/src/git_timeline.rs:50 | There is a tick for every whole 120 pixels of width, but at least two and at most ten. |
| TimelineLaws.StepIsFirst | frontend/src/git_timeline.rs:64-67 | The step is the first interval that cuts the span into at most the target number of pieces, or an even cut if none does. |
| TimelineLaws.TicksAreTheMultiples | frontend/src/git_timeline.rs:68-72 | Every multiple of the step on the axis has its tick, at its place and in order, and there are no others. |
| TimelineLaws.NoMultipleMarksTheEnds | frontend/src/git_timeline.rs:73-76 | Without such a multiple the ticks are the two ends. |
| TimelineLaws.OneInstantHasOneTick | frontend/src/git_timeline.rs:46-49 | A single instant has one tick in the middle. |
| Timeline.Layout | frontend/src/git_timeline.rs:12-80 | The undated hashes in input order, the clusters of the greedy pass over the dated commits sorted by time and hash, and the ticks of their span. |
| Timeline.BuildClusters | frontend/src/git_timeline.rs:28-45 | Extending the last cluster in place or opening one gives the clusters of the greedy starts. |
| Timeline.SplitDated | frontend/src/git_timeline.rs:15-21 | Dated and undated commits are separated in order. |
| Timeline.SortedIsUnique | frontend/src/git_timeline.rs:22 | The order by time and hash is total: any two sorted arrangements of the same commits are the same. |
| Timeline.StartsAreGreedy | frontend/src/git_timeline.rs:34-45 | Consecutive cluster starts are at least 32 pixels apart and every commit lies within 32 pixels of its own. |
| Timeline.GreedyIsOptimal | frontend/src/git_timeline.rs:28-45 | No grouping of ascending positions whose groups span less than 32 pixels has fewer groups. |
| Timeline.GreedyFits | frontend/src/git_timeline.rs:28-45 | The greedy clusters are such a grouping. |
| Timeline.LayoutKeepsEveryCommit | frontend/src/git_timeline.rs:28-45 | The clusters put end to end are exactly the dated commits in order. |
| Timeline.LayoutSpacesClusters | frontend/src/git_timeline.rs:34-45 | Neighbouring clusters stand at least 32 pixels apart, for every width. |
| Timeline.LayoutIsOptimal | frontend/src/git_timeline.rs:12-45 | The layout has as few clusters as any grouping of the dated commits within 32 pixels, and a grouping with so few exists. |
| Timeline.LayoutIgnoresOrder | frontend/src/git_timeline.rs:22-45 | The same dated commits in another order give the same clusters. |
| TimelineLaws.FewestClusters | frontend/src/git_timeline.rs:28-45 | With every commit shown in proportion to its time on an axis of `width` pixels, one at least, the layout draws no more clusters than any grouping whose members lie less than 32 pixels apart, and a grouping with so few exists. |
| TimelineLaws.ClustersStandAtTimes | frontend/src/git_timeline.rs:28-45 | A cluster begins with the commit after those of the clusters before it, and its position is to the axis as that commit's time is to the span, or one half if all times are the same. |
| TimelineLaws.NeighboursAreApart | frontend/src/git_timeline.rs:34-45 | Neighbouring clusters stand at least 32 pixels apart on an axis of `width` pixels. |
| TimelineLaws.EndsAreApart | frontend/src/git_timeline.rs:34-45 | Commits of two different instants on an axis of at least 32 pixels never make a single cluster. |
| TimelineLaws.SortedByTimeAndHash | frontend/src/git_timeline.rs:22 | Commits are laid out by time, and in dictionary order of their hashes where times are equal. |
| TimelineLaws.EachEntryIsKept | frontend/src/git_timeline.rs:15-21 | Each entry is kept once, at its place among the dated or the undated ones. |
| DotSegments.RemoveDotSegments | backend/src/web.rs:280-313 | The character-level rewriting ends and computes the split-and-stack meaning of section 5.2.4 of RFC 3986. |
| DotSegments.PopLastSegment | backend/src/web.rs:315-321 | Cutting the output at its last slash removes exactly the last piece moved to it. |
| DotSegments.RewriteDots | backend/src/web.rs:285-302 | The rewriting branches keep where input and output lead, shorten the input, and apply exactly when it opens with a dot segment. |
| DotSegments.PushSegment | backend/src/web.rs:303-310 | Moving a first segment to the output keeps where input and output lead. |
| DotSegments.NoDotsLeft | backend/src/web.rs:280-313 | The result has no `.` or `..` segment. |
| DotSegments.FixedPoints | backend/src/web.rs:280-313 | A path is left alone exactly when it has no dot segment. |
| DotSegments.RemoveDotsIsIdempotent | backend/src/web.rs:280-313 | A second pass changes nothing. |
| DotSegments.NeverLonger | backend/src/web.rs:280-313 | The result is no longer than the path. |
| DotSegments.StaysAbsolute | backend/src/web.rs:280-313 | An absolute path stays absolute. |
| DotSegments.ResultEnds | backend/src/web.rs:280-313 | The result is empty, ends in a slash, or ends as the path does. |
| DotSegments.ResultHasNo | backend/src/web.rs:280-313 | No character comes in that the path did not have. |
| DotRewriting.DropsDot | backend/src/web.rs:280-313 | `/./` anywhere in an absolute path may be written `/`. |
| DotRewriting.DropsParent | backend/src/web.rs:280-321 | `/segment/../` anywhere in an absolute path may be written `/`. |
| DotRewriting.DropsParentOfRoot | backend/src/web.rs:280-321 | `/../` at the root may be written `/`. |
| DotRewriting.EndsInDot | backend/src/web.rs:289-292 | A final `/.` leaves its slash. |
| DotRewriting.EndsInParent | backend/src/web.rs:296-299 | A final `/segment/..` leaves the slash before the segment. |
| DotRewriting.DropsLeading | backend/src/web.rs:285-288 | Dot segments at the start of a relative path vanish with their slash. |
| UriReference.ExtractsTheScheme | backend/src/web.rs:251-268 | A scheme is found exactly where the grammar of section 3.1 of RFC 3986 has one, with the rest after its colon. |
| UriReference.ParsesText | backend/src/web.rs:170-203 | Components that can be told apart are cut out of their text again. |
| UriReference.ParseGivesText | backend/src/web.rs:170-203 | Any text is cut into components that make it up again. |
| UriReference.ParseInverts | backend/src/web.rs:170-203 | Cutting is the inverse of putting together: a text is cut into given components exactly when they can be told apart and make it up. |
| Redirect.ResolveRedirect | backend/src/web.rs:163-249 | The branches and appends return the recomposed target of section 5.2.2 of RFC 3986, or an error when the base has no scheme. |
| Redirect.ResolveTarget | backend/src/web.rs:180-224 | The chosen scheme, authority, path, query and fragment are those of the section's transformation of the parsed reference. |
| Redirect.Recompose | backend/src/web.rs:226-248 | The appends are the recomposition of section 5.3, with a slash put before a relative path below an authority. |
| Redirect.TargetIsCuttable | backend/src/web.rs:163-249 | For a valid base no slash ever has to be put in, and the target's text can be cut into components again. |
| Redirect.ReadsBack | backend/src/web.rs:226-248 | A target's text is read back as the target, up to a path that opens with two slashes, which is read as an authority and a path with the same text. |
| Redirect.TargetEndsWell | backend/src/web.rs:163-249 | Given a trimmed location, the target ends in no white space, exactly unless the location is empty and the base ends in some. |
| Redirect.RedirectsAreFixedPoints | backend/src/web.rs:163-249 | Resolving always succeeds, and resolving the result against any base returns it unchanged exactly unless the location left the path to the base and the base path has dot segments, or the location is empty and the base ends in white space. |
| Redirect.InheritedDotsStay | backend/src/web.rs:211-215 | Redirected with an empty location, `http://h/a/../b` is returned with its dots, and changes when resolved again. |
| Redirect.InheritedSpaceIsTrimmed | backend/src/web.rs:164-215 | White space outside ASCII at the end of the base path survives an empty location and is trimmed when the result is resolved again. |
| RedirectLaws.MergesAfterLastSlash | backend/src/web.rs:270-278 | Merging replaces what follows the last slash of the base path; an empty base path below an authority counts as `/`. |
| RedirectLaws.AbsoluteUrl | backend/src/web.rs:180-197 | A location with a scheme is the URL, but for the dot segments of its path. |
| RedirectLaws.NetworkPath | backend/src/web.rs:198-205 | A location with an authority takes only the scheme of the base. |
| RedirectLaws.AbsolutePath | backend/src/web.rs:206-220 | An absolute path takes scheme and authority of the base. |
| RedirectLaws.RelativePath | backend/src/web.rs:206-224 | A relative path is resolved in the directory of the base path: what precedes its last slash, a slash, and the location's path, without dot segments. |
| RedirectLaws.SamePath | backend/src/web.rs:206-215 | Without a path the base's is kept, and without a query the base's too; the fragment is the location's. |
| RedirectLaws.SlashIsPutIn | backend/src/web.rs:226-240 | A relative base path below an authority gets a slash. |
| RedirectLaws.BaseNeedsScheme | backend/src/web.rs:163-179 | Resolving fails exactly for a base without a scheme. |
| RedirectLaws.BlanksDoNotMatter | backend/src/web.rs:163-168 | White space around the location does not matter. |
| RedirectLaws.SchemesAreRead | backend/src/web.rs:251-268 | What precedes the first colon is the scheme exactly when it is a letter followed by letters, digits, `+`, `-` and `.`. |
| CappedBody.ReadBodyCapped | backend/src/web.rs:362-385 | Returns the first bytes up to the cap; a failure is reported exactly when it comes before there are as many. |
| CappedBody.FramingDoesNotMatter | backend/src/web.rs:370-382 | How the bytes are cut into frames does not matter, nor does anything after the cap. |
| CappedBody.FrameByFrame | backend/src/web.rs:370-384 | The result for each first frame in terms of the rest of the body: bytes count towards the cap, trailers do not, and a failure counts while bytes are wanted. |
| InetAton.OrFills | backend/src/web.rs:123-145 | Or-ing a number into empty low bits adds it. |
| InetAton.CombineIsPositional | backend/src/web.rs:123-145 | Shifting and or-ing one to four parts gives their base-256 positional value, for exactly the lists in range; every other list is refused. |
| InetAton.PartParsesWhatItSpells | backend/src/web.rs:95-106 | A part parses to a number exactly when it spells it in decimal, hexadecimal or octal and it fits 32 bits. |
| InetAton.AddressesAreSpelled | backend/src/web.rs:110-148 | A host parses to an address exactly when its parts spell in-range numbers whose positional value is that address. |
| InetAton.PartsOfIsExact | backend/src/web.rs:123-145 | Each 32-bit address can be written with one, two, three or four in-range parts. |
| InetAton.EverySpellingParses | backend/src/web.rs:110-148 | However many parts an address is written with and however each is spelled, the host parses back to it. |
| InetAton.SpellingSpells | backend/src/web.rs:95-106 | Every number is spelled in each notation: its decimal digits, its hexadecimal digits after `0x` or `0X`, the first two also after a plus sign, and its octal digits after a zero. |
| InetAton.SpellingParses | backend/src/web.rs:95-106 | A number in any notation parses to itself when it is less than 2^32, and to nothing otherwise. |
| InetAton.OneReading | backend/src/web.rs:95-106 | No text spells two numbers. |
| InetAton.NumbersAreDigits | backend/src/web.rs:95-106 | A part is a number exactly when it has the digits of its kind: hexadecimal after `0x` or `0X`, octal after a zero, decimal otherwise. |
| InetAton.SpelledAddressParses | backend/src/web.rs:95-148 | Any address below 2^32, written in one to four parts with a notation chosen for each, parses back to that address. |
| SearchMerge.ExtendUnique | backend/src/web.rs:546-555 | Adds the hits with new URLs in order up to the limit. |
| SearchMerge.ExtendedFirstOccurrences | backend/src/web.rs:546-555 | Extending the first occurrences of what came before gives the first occurrences of everything so far, cut at the limit. |
| SearchMerge.MergeStep | backend/src/web.rs:484-543 | One more source can be merged after the earlier ones were cut at the limit, with the result of merging everything first. |
| SearchMerge.ExtractTopics | backend/src/web.rs:612-641 | The recursive walk adds the links of the pre-order flattening of the topic tree, first occurrences up to the limit. |
| SearchMerge.TopicStep | backend/src/web.rs:612-641 | A topic's own link, then its group, then the rest of the list is the flattening of the list. |
| SearchMerge.SearchInstant | backend/src/web.rs:558-610 | The instant answer's hits are the first `limit` of its abstract, direct results and topics without repeated URLs. |
| SearchMerge.SearchWeb | backend/src/web.rs:399-544 | For fixed answers, the short-circuiting search returns the first `limit` entries of the URL-deduplicated concatenation of all sources in order; the full-text source answers for as many as are still wanted. |
| SearchMerge.NoRepeats | backend/src/web.rs:470-544 | No two hits returned share a URL. |
| SearchLaws.KeptHits | backend/src/web.rs:546-555 | The hits kept are exactly those whose URL no earlier hit has; no two share a URL, and later hits do not change what is kept of earlier ones. |
| SearchLaws.SourcesInOrder | backend/src/web.rs:470-533 | For a developer's query: instant answer, Stack Overflow, the crate index if about Rust, GitHub, Wikipedia; for any other: instant answer, Wikipedia, Stack Overflow, GitHub. |
| SearchLaws.FailedSourcesAreSkipped | backend/src/web.rs:470-543 | Sources that fail add nothing and stop nothing. |
| SearchLaws.LastSource | backend/src/web.rs:403-543 | The limit is between one and ten; the full-text source is asked last, and only while hits are missing. |
| SearchLaws.StillWanted | backend/src/web.rs:536-543 | The full-text source is asked for as many hits as are missing. |
| SearchLaws.InstantInOrder | backend/src/web.rs:566-607 | The instant answer gives its abstract, if it has text and URL, then its direct results, then its topics. |
| SearchLaws.Titles | backend/src/web.rs:590-593 | A link's title is its text up to the first dash between blanks, trimmed, or its first sixty characters. |
| SearchLaws.TopicsInPreOrder | backend/src/web.rs:612-641 | A topic with text and URL comes before the topics it groups, and those before the rest. |
| SearchLaws.DirectInOrder | backend/src/web.rs:579-602 | Direct results are links, without what they group. |
| BridgeProtocol.StepKeepsInvariant | frontend/src/bridge.rs:235-511 | Every event keeps the invariant: pending kills are those owed and live shells those recorded, closing with kills pending keeps the self-reference and the loop, closed has nothing pending. |
| BridgeProtocol.EveryRunIsOrderly | frontend/src/bridge.rs:235-511 | The invariant holds after every run of events from a new connection. |
| BridgeProtocol.NoKillIsLost | frontend/src/bridge.rs:366-403 | In every run a kill asked for is still pending or was accepted by a socket afterwards. |
| BridgeProtocol.KillIsRecorded | frontend/src/bridge.rs:366-372 | Asking for a kill before closure is always recorded, whatever follows in the same step. |
| BridgeProtocol.ClosedIsClean | frontend/src/bridge.rs:405-454 | When closed, nothing is pending, every kill asked for was sent, and every spawned shell has since exited or been sent a kill. |
| BridgeProtocol.CleanupOutlivesItsUsers | frontend/src/bridge.rs:436-454 | While closing but not closed, the self-reference is held and the reconnect loop runs, even with no user left. |
| BridgeProtocol.ClosedIsAbsorbing | frontend/src/bridge.rs:366-479 | However a run goes on after closure, it changes nothing but the number of handles. |
| BridgeProtocol.CleanupFinishes | frontend/src/bridge.rs:374-413 | While closing, a greeting closes the connection exactly when the socket accepts every pending kill. |
| BridgeProtocol.CleanupCanFinish | frontend/src/bridge.rs:254-342 | After every run that leaves the connection closing, the network alone can bring it to a close: hang up, connect again, greet and take the pending kills. |
| BridgeLaws.SendsNeedAnAnswer | frontend/src/bridge.rs:349-403 | Messages are accepted, and kills sent, only over a socket whose server greeted back or counts as legacy; messages only while not closing. |
| BridgeLaws.EventsAreFollowed | frontend/src/bridge.rs:235-511 | Status, socket and number of attempts after each event, as a table, until closure makes the connection unavailable for good. |
| BridgeLaws.LoopFollows | frontend/src/bridge.rs:254-342 | Where the loop waits after each event; the delays are 1, 2, 5, 10 and then 30 seconds. |
| BridgeLaws.HistoryIsRecorded | frontend/src/bridge.rs:349-454 | Each accepted spawn, reported exit, asked kill, asked closure and sent kill is in the history, in order, and nothing else. |
| BridgeLaws.KillsWereAskedFor | frontend/src/bridge.rs:366-454 | In every run a kill is sent only after it was asked for, or after a closure that followed the spawn of its shell. |
| BridgeLaws.ClosureIsLast | frontend/src/bridge.rs:349-454 | In every run nothing is spawned, and no second closure begins, after a closure. |
| BridgeConnection.Connection.constructor | frontend/src/bridge.rs:240-252 | A new connection is in the protocol's initial state; every step below keeps the invariant. |
| BridgeConnection.Connection.SendSpawn | frontend/src/bridge.rs:349-364 | Sending a spawn takes the protocol's step: refused while closing, unready or disconnected, handed to the socket otherwise, and recorded exactly when the socket takes it. |
| BridgeConnection.Connection.Send | frontend/src/bridge.rs:349-360 | Any other message is handed to the socket exactly when the connection is ready and not closing, accepted exactly when the socket takes it, and leaves the connection as it is. |
| BridgeConnection.Connection.TryKill | frontend/src/bridge.rs:385-400 | One kill is handed to the socket; only if it is accepted is the shell forgotten. |
| BridgeConnection.Connection.Kill | frontend/src/bridge.rs:366-372 | Takes the protocol's kill step, handing the pending kills to the socket up to the first it refuses. |
| BridgeConnection.Connection.FlushKills | frontend/src/bridge.rs:374-403 | The loop hands the pending kills to the socket in some order up to the first not accepted, every one if all are, and finishes a close when none is left. |
| BridgeConnection.Connection.Finish | frontend/src/bridge.rs:405-413 | Marks closed, aborts the loop, drops the socket and the self-reference. |
| BridgeConnection.Connection.CloseAll | frontend/src/bridge.rs:436-454 | Takes the protocol's closing step: live shells become pending kills, then either closure or a held cleanup. |
| BridgeConnection.Connection.Route | frontend/src/bridge.rs:456-479 | Takes the protocol's step for a server message: exits recorded, greetings and legacy answers change the status and flush. |
| BridgeConnection.Connection.OnClose | frontend/src/bridge.rs:278-287 | The socket's closing callback makes an unclosed connection unavailable. |
| BridgeConnection.Connection.OnDrop | frontend/src/bridge.rs:304-318 | A socket that goes away without calling back ends the wait for it and changes nothing else. |
| BridgeConnection.Connection.CloneHandle | frontend/src/bridge.rs:217-218 | Another reference to the connection changes nothing else. |
| BridgeConnection.Connection.DropHandle | frontend/src/bridge.rs:254-259 | With the last reference the loop stops, unless the connection still holds itself. |
| BridgeConnection.Connection.BeginAttempt | frontend/src/bridge.rs:257-261 | A round of the loop begins by connecting again. |
| BridgeConnection.Connection.Open | frontend/src/bridge.rs:267-323 | An opened socket is kept; a failed one makes the connection unavailable and ends the attempt. |
| BridgeConnection.Connection.LegacyTimeout | frontend/src/bridge.rs:304-319 | After two seconds an unanswered greeting means a legacy server and flushes; a usable connection starts its back-off over. |
| BridgeConnection.Connection.FinishAttempt | frontend/src/bridge.rs:324-335 | The socket is dropped and the back-off delay grows from one to thirty seconds. |
| BridgeConnection.Connection.HangUp | frontend/src/bridge.rs:318-335 | A socket that hung up ends its attempt. |
| Conversation.ConversationList.MergeSnapshot | frontend/src/conversation.rs:107-190 | The in-place merge leaves the list and both nonces as the specification says: placeholder taken off, upserts in order, live text last. |
| Conversation.ConversationList.Put | frontend/src/conversation.rs:116-167 | One upsert overwrites the first item of the same identity, keeping a step's key, or appends. |
| Conversation.ConversationList.PushLive | frontend/src/conversation.rs:168-189 | The live text goes last, under the placeholder's id or a fresh local one. |
| Conversation.First | frontend/src/conversation.rs:119-166 | The lookup gives the first item with the identity, or none. |
| ConversationLaws.KeysAreHandles | frontend/src/conversation.rs:193-201 | Two items share a list key exactly when kind and identifier agree: the key texts never collide across kinds or numbers. |
| ConversationLaws.MergeKeepsOrderAndKeys | frontend/src/conversation.rs:107-201 | Merging neither reorders nor drops any item but a local message at the end; each item kept keeps its key, and one the snapshot does not mention keeps its contents. |
| ConversationLaws.AppliedExtends | frontend/src/conversation.rs:116-167 | Upserts change no handle of an item already there and only draw nonces upwards. |
| ConversationLaws.MergeStaysHealthy | frontend/src/conversation.rs:107-190 | With positive server ids a merge keeps all handles distinct and both nonces ahead of everything in use. |
| ConversationLaws.KeysStayDistinct | frontend/src/conversation.rs:107-201 | Over any sequence of merges all list keys stay distinct. |
| ConversationRepeat.AppliedOverlays | frontend/src/conversation.rs:116-167 | Where every update finds its item, the merge is the last update for each item and nothing else. |
| ConversationRepeat.AppliedRevises | frontend/src/conversation.rs:116-167 | Whatever is added, an item already there is as the last update for it has it if it is the first of its identity, and unchanged otherwise. |
| ConversationRepeat.AppliedAgain | frontend/src/conversation.rs:116-167 | Applying the same updates again changes neither list nor nonce, whatever the list and however often an identity repeats in them. |
| ConversationRepeat.LiveMergeRepeats | frontend/src/conversation.rs:107-190 | Merging a snapshot with live text twice is merging it once, always. |
| ConversationRepeat.MergeIsIdempotent | frontend/src/conversation.rs:107-190 | Merging any snapshot twice is merging it once exactly unless it shows no live text, adds nothing, and the list ends in two local messages. |
| ConversationRepeat.TwoNoticesAreTakenAway | frontend/src/conversation.rs:109-115 | After two local notices, merging an empty snapshot twice differs from merging it once. |
| ConversationShows.LiveTextIsShown | frontend/src/conversation.rs:168-190 | Live text or reasoning is shown last, as an assistant message in the session of the snapshot's first message, with open reasoning left open, and under the id of the local message it replaces or the next one. |
| ConversationShows.LocalMessagesAreTaken | frontend/src/conversation.rs:109-115 | Only an assistant message with an id that is not positive is taken off the end. |
| ConversationShows.SessionOfFirst | frontend/src/conversation.rs:174-184 | The session is that of the first message in the snapshot, or 0. |
| ConversationShows.LooksForTheSameId | frontend/src/conversation.rs:117-166 | Messages, steps and tasks are found by their own ids, and nothing else is ever found. |
| ConversationShows.UpdatesReplaceOrAdd | frontend/src/conversation.rs:116-167 | An update takes the place of the first item found or goes last; a step found keeps its key, and a new one draws the next. |
| Reasoning.EscapesEachChar | crates/core/src/chat.rs:296-301 | The three replacements one after the other escape each character by itself. |
| Reasoning.EscapedIsInjective | crates/core/src/chat.rs:296-301 | Different reasoning is escaped differently. |
| Reasoning.AnswerComesBack | crates/core/src/chat.rs:303-322 | Whatever the reasoning, stripping it off what it was put before gives the answer. |
| ResponseStream.SpinStream.PollNext | backend/src/http_client.rs:172-216 | One poll answers and moves on as the specification says, with at most two state changes. |
| ResponseStream.SpinStream.CollectError | backend/src/http_client.rs:255-274 | Polling the collection of an error body gives one error, or waits where it left off. |
| ResponseStream.PollAccounts | backend/src/http_client.rs:162-252 | Each poll hands out the next expected item, uses up a wait, or ends the stream with nothing expected. |
| ResponseStream.SchedulingDoesNotMatter | backend/src/http_client.rs:162-252 | After any number of polls the answers that are not pending are the expected items in order and then the end forever, and only as many polls are lost as there are waits. |
| ResponseStream.InterleavingsAgree | backend/src/http_client.rs:162-252 | Two streams that differ only in their waits give the same answers, however each is polled. |
| ResponseStream.FailureYieldsOneError | backend/src/http_client.rs:176-204 | However it is polled, a failed request or an unsuccessful status yields exactly one error and then the end forever. |
| ResponseStream.SuccessYieldsChunks | backend/src/http_client.rs:204-252 | However it is polled, a successful response whose body does not break yields its chunks in order up to the first trailers, and then the end forever. |
| ResponseLaws.SuccessIsTwoHundreds | backend/src/http_client.rs:195-205 | The successful statuses are the two hundreds. |
| ResponseLaws.RequestFailures | backend/src/http_client.rs:83-92 | A failed request is a blocked host exactly when its text holds `HttpRequestDenied`. |
| ResponseLaws.UnsuccessfulStatus | backend/src/http_client.rs:255-274 | 401 and 403 are authentication failures; any other unsuccessful status is reported with what the whole body says, or with why the body could not be read. |
| ResponseLaws.NothingBeforeTheResponse | backend/src/http_client.rs:177-194 | No poll is answered before the request is. |
| ResponseLaws.OneMoreWait | backend/src/http_client.rs:238-251 | A wait more anywhere in a body adds a wait and nothing else. |
| ResponseLaws.FailuresAreHandedOut | backend/src/http_client.rs:238-251 | A body frame that fails is handed out where it happens, after the chunks before it, and the stream goes on. |
| FolderStatus.CollectStatuses | frontend/src/git_status.rs:148-151 | Each path is given the set of statuses reported for it. |
| FolderStatus.CountPath | frontend/src/git_status.rs:160-164 | The loop over a path's slashes adds the path to the tally of every folder it goes through and no other. |
| FolderStatus.SummarizeFolders | frontend/src/git_status.rs:144-168 | In whatever order paths are counted, the summaries are those of the folders some path goes through, with the number of paths of each status below them. |
| FolderStatus.CountOneMore | frontend/src/git_status.rs:163 | A new path raises the count of its status by one and no other. |
| FolderStatus.FoldersConserveCounts | frontend/src/git_status.rs:144-168 | A folder's counts add up to the number of distinct changed paths strictly below it. |
| FolderStatus.NestedFoldersCountLess | frontend/src/git_status.rs:144-168 | A folder around a summarised one is summarised, and counts at least as many paths of each status. |
| FolderStatus.FoldersIgnoreOrder | frontend/src/git_status.rs:144-168 | Input order and duplicates do not matter. |
| FolderStatus.StatusOfPath | frontend/src/git_status.rs:148-158 | A path any entry reports in conflict is in conflict; otherwise it has the status its entries agree on, or is unknown if they disagree. |
| FolderStatus.FoldersOfPaths | frontend/src/git_status.rs:160-168 | The folders summarised are exactly those that some reported path continues after a slash. |
| FolderStatus.CountsOfFolder | frontend/src/git_status.rs:160-168 | A folder's count of a status is the number of reported paths with that status that begin with the folder and a slash. |
| SnapshotVerify.CountFiles | bridge/src/plugins.rs:555-579 | The walk ends with the number of files exactly when it meets only directories and files and no more of the latter than are listed. |
| SnapshotVerify.ReadDirectory | bridge/src/plugins.rs:558-575 | Reading one directory moves its files to the count and its subdirectories to the stack, losing none. |
| SnapshotVerify.CheckFile | bridge/src/plugins.rs:580-602 | A listed file passes exactly when it lies at its path, through no link, with its content and mode. |
| SnapshotVerify.VerifySnapshot | bridge/src/plugins.rs:553-605 | Refuses, in this order, a root that is no directory, unsupported or extra files, missing files and changed files; succeeds exactly when the count and every check do. |
| SnapshotVerify.CountIsCardinality | bridge/src/plugins.rs:555-576 | The walk's count is the number of file paths in the tree. |
| SnapshotVerify.FilesAreFound | bridge/src/plugins.rs:580-586 | A path names a file of the tree exactly when looking it up finds one. |
| SnapshotVerify.VerifiedIsExact | bridge/src/plugins.rs:553-605 | For any tree and any distinct listed paths, the snapshot is verified exactly when each listed file is at its path with its content and mode, and whatever else is found at any path is a directory or a listed file. |
| SnapshotVerify.DistinctPathsAreCounted | bridge/src/plugins.rs:577-579 | As many paths are listed as there are files exactly when no path is listed twice, which is when counting files suffices. |
| SnapshotVerify.AcceptedIsExact | bridge/src/plugins.rs:555-602 | For distinct listed paths, whatever lies in an accepted tree is a directory, or a file that is listed, and each listed file is there with its content and mode. |
| SnapshotVerify.ExactIsAccepted | bridge/src/plugins.rs:555-602 | Each such tree is accepted. |
| SnapshotVerify.ReasonsAreExact | bridge/src/plugins.rs:553-605 | Which reason a refused tree is given, in terms of what lies where. |
| SnapshotVerify.RepeatedPathHidesAFile | bridge/src/plugins.rs:553-605 | A path listed twice leaves room for a file that is not listed. |

## Left out

- WorkspaceVfs.CanonicalizeIsIdempotent: one direction only; `WorkspaceVfs.FixedPointsHaveNoBackslash` gives both where the second lookup follows no link. A link at the slash reading of a name with a backslash may lead back to that very file.
- ConversationLaws.KeysStayDistinct: numbers are unbounded, so the wrap-around of the 64-bit nonces after exhausting them is not modelled.
- Timeline.Layout: times and widths are real numbers; rounding, NaN, infinities and signed zeros of `f64` are not modelled, a non-finite time being an absent one.
- Timestamp.ParserIsExact: seconds are exact decimal fractions; the rounding of a long fraction to the nearest double, which may reach 60, is not modelled.
- SnapshotVerify.VerifySnapshot: expects normal relative paths, which the package manifest check guarantees; failing directory reads and permission bits other than executable are not modelled, and which of an unsupported and an extra file is met first, which the order of reading decides, is one reason.
- Redirect.RedirectsAreFixedPoints: parsing a base URI is not modelled; `ValidBase` states what the URI type guarantees.
- Real input and output: WASI descriptors, HTTP, WebSockets, timers and the file system, which is assumed not to change during one resolution.
- The texts of error messages, kept as the parts they are formatted from; the mapping of file errors to project errors, kept as a wrapper.
- The sort itself: an insertion sort stands for it, the order being total.
- How a query is classified for the search, and decoding the services' answers: both are parameters.
- The bridge's callback and completion registries, credential caching, and what a running continuation does after it was aborted.
- The end of the connection when all handles are dropped without closing: it then promises nothing.
- `resolve_in_root` and `canonical_root`, which look at the file system, and path components on systems other than Unix.
- Reading and writing files, recursive deletion, and the dispatch tables around the modelled functions.
- Presentation: badge classes, descriptions, tool labels, MIME types, URL encoding.
- Message and step fields that a merge only copies are one field.
