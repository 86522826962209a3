# kcf_tool verification

A Dafny model of the decision-making parts of kcf_tool: the value codec and the parameter edit built on it, the route
rate measurement, the diagnostics observer, the remote executor and its handles, the local and combined graphs, the local
gateway client, and local discovery. Qt, sockets, JSON parsing and the KCF framework are represented by what they answer.

Run `dafny verify dfyconfig.toml` in this directory.

## How the model is organised

| files | part of the program |
|---|---|
| `Results`, `Numerals`, `Ordering` | error codes, decimal text, string and tuple order, sorting and filtering |
| `Scalars`, `ValueCodec`, `CodecLaws`, `RoundTrips`, `CodecMeaning` | typed fields at descriptor offsets: decode, encode, and what they do to bytes |
| `ParameterEdit`, `WholeEdit`, `ParameterEditor` | the parameter form: rows, edits, overlay on a fresh read, write |
| `NetworkRates`, `RateLaws` | the per-route measurement windows |
| `Conversion`, `DiagnosticsCache`, `NetworkObserver` | framework identities and answers as the tool keeps them, the diagnostics cache, and the rotating query scheduler |
| `RemoteExecutor`, `RemoteHandles` | the bounded command queue with its worker and Stop; action and subscription handles |
| `GraphModel`, `GraphBuilder`, `GraphFilter`, `GraphLaws`, `GraphFacts` | the graph of a local snapshot |
| `NetworkRoutes`, `NetworkGraph`, `NetworkGraphLaws`, `NetworkGraphFacts` | remote hosts and verified routes |
| `GatewayText`, `GatewayPeers`, `GatewayFormat`, `GatewayPrint`, `GatewayLink`, `GatewayClient`, `GatewayMoments` | the local gateway protocol, its publish cycle and what a published snapshot says |
| `Discovery`, `DiscoveryLaws` | the discovery refresh and selection by name |

Code that works step by step is a method or a class; its contract ties it to a specification function or predicate, and
the laws are lemmas about that specification. A string holds one byte per char, so string order is byte order. Times are
integers: nanoseconds of a steady clock, or milliseconds where the program shows them.

Conventions that recur in the statements below:

- `ExactText(ft)`: a finite float, printed, is read back as the same bytes, and the text of a NaN or an infinity is never
  read as a finite value. `Scalars.ExactTextPossible` shows the assumption consistent. Integers and booleans need none.
- `DisjointFields(d)`: no byte belongs to two declared fields.
- A graph is described by `IsGraph`, a predicate saying of every group, node and edge whether it belongs and in which
  order they stand; `GraphModel.GraphUnique` shows that it has at most one solution.

## Findings about the code

- Decoding and encoding back refuses when two declared fields share a name, and when a float is not finite:
  `RoundTrips.DecodeThenEncode` says exactly when, `RoundTrips.NanRefused` and `RoundTrips.SameNameRefused` give payloads.
  Duplicate names reach the codec only if the framework's descriptor check lets them through; that check is not part of
  this model.
- The order of the discovered lists shows in the local graph exactly when records contradict one another
  (`GraphLaws.OrderIndependentExactly`; `GraphLaws.OrderMatters` gives two lists).
- A group filter equals cutting the full graph down exactly when the last element with each identity found in the group is
  itself in the group (`GraphFilter.FilterRestricts`; `GraphLaws.FilterDiffers` gives an element list). Such a list cannot
  reach the code from `Refresh`, which places a process by its identity, so the filtered graph of a refreshed cache is
  always the cut one (`DiscoveryLaws.RefreshedCut`).
- Handles are distinct exactly until the 64-bit counter wraps (`RemoteHandles.HandlesDistinct`).
- The endpoint key joined with colons belongs to one identity exactly when neither of its ids holds a colon
  (`NetworkRoutes.RouteEndpointKeyIdentifies`). An id with a colon cannot reach the code from the observer, whose ids are
  hexadecimal in every cache it can reach (`Conversion.ConvertedColonFree`), so its verified routes always join what they seem to join
  (`NetworkRoutes.ObservedSidesMeet`).
- A published gateway snapshot can name another generation than its peers were read in exactly when the gateway reuses a
  generation it left, and another session exactly when a generation is met again after its session was left
  (`GatewayMoments.UnmixedExactly`, `GatewayMoments.SessionsUnmixedExactly`). Both are for any one parser and for a gateway
  whose documents that parser and the body limit let through; which moments can be published at all is
  `GatewayMoments.PublishedExactly`.
- The first supervisor list read by a refresh leaves no trace in its result (`DiscoveryLaws.FirstListForgotten`).

## Model

| member | source | states |
|---|---|---|
| Numerals.FromCharsPrint | src/backend/value_codec.cpp:14-27 | every 64-bit integer, printed, is read back whole as itself |
| Scalars.IntegerTextAccepted | src/backend/value_codec.cpp:18-31 | integer text is accepted exactly when it is digits, with a minus sign for signed types only, denoting a number of the width |
| Scalars.WriteThenRead | src/backend/value_codec.cpp:33-44 | an accepted text is stored as bytes that are shown as its canonical text |
| Scalars.ReadThenWrite | src/backend/value_codec.cpp:33-44 | shown bytes are written back unchanged; only a non-finite float is refused |
| CodecMeaning.IntegerShown | src/backend/value_codec.cpp:14-17 | an integer is shown as the decimal text of the two's complement or unsigned number its bytes are the memory of, lowest byte first |
| CodecMeaning.IntegerStored | src/backend/value_codec.cpp:18-30 | bytes are stored for a text if and only if it spells the number of the type that they are the memory of |
| CodecMeaning.DigitPlaces | src/backend/value_codec.cpp:23-24 | digits denote their number in base ten |
| CodecMeaning.BooleanShownAndStored | src/backend/value_codec.cpp:33-39 | false is 0, true is 1, other bytes are refused, and only the two words are accepted |
| CodecMeaning.FloatShownAndStored | src/backend/value_codec.cpp:14-22 | a float is shown from its pattern in memory, and a text is stored if and only if the library reads it whole as a finite pattern, which is stored |
| CodecMeaning.FiniteByExponent | src/backend/value_codec.cpp:19-22 | finite are the patterns whose exponent bits are not all set |
| ValueCodec.ElementInside | src/backend/value_codec.cpp:46-73 | for payloads below 2^32 bytes the 32-bit product in the element address never wraps and the element stays inside its field |
| ValueCodec.DecodeFieldInto | src/backend/value_codec.cpp:53-57 | the element loop yields the field, or the code of its first unreadable element |
| ValueCodec.DecodeInto | src/backend/value_codec.cpp:48-59 | decodes as `Decode`; on any failure the output is untouched |
| ValueCodec.EncodeFieldInto | src/backend/value_codec.cpp:70-73 | the checks and the in-place element loop turn the buffer into `EncodeField` of it, or report its code |
| ValueCodec.EncodeInto | src/backend/value_codec.cpp:60-76 | encodes as `Encode`; on any failure the output is untouched |
| CodecLaws.BytesDetermined | src/backend/value_codec.cpp:46-76 | payloads equal on every element of every field and on every undeclared byte are equal |
| CodecLaws.EveryFieldIsNamed | src/backend/value_codec.cpp:63-69 | as many inputs as declared fields, none placed twice: every declared field has its input and declared names are distinct |
| CodecLaws.EncodeAccepts | src/backend/value_codec.cpp:60-76 | Encode succeeds if and only if header, seed and layout fit and each declared field is supplied exactly once with writable texts |
| CodecLaws.EncodeCoverage | src/backend/value_codec.cpp:65-75 | success wrote every declared field exactly once, and every byte outside the fields is the seed's, or zero |
| CodecLaws.EncodeHolds | src/backend/value_codec.cpp:67-75 | with disjoint fields each field of the result holds the scalars of the input of its name |
| CodecLaws.EncodeIgnoresOrder | src/backend/value_codec.cpp:63-75 | permuting the inputs changes neither success nor, with disjoint fields, the payload |
| RoundTrips.DecodeMeaning | src/backend/value_codec.cpp:48-59 | when Decode succeeds, and then the fields in declaration order with the text of every element |
| RoundTrips.DecodeThenEncode | src/backend/value_codec.cpp:48-76 | a decoded payload encodes over itself if and only if names are distinct and floats finite, and then byte for byte |
| RoundTrips.EncodeThenDecode | src/backend/value_codec.cpp:48-76 | decoding an encoded payload gives the inputs in declaration order with canonical texts, which encode to the same payload |
| RoundTrips.NanRefused | src/backend/value_codec.cpp:18-22 | a payload with a NaN that decodes and does not encode back |
| RoundTrips.SameNameRefused | src/backend/value_codec.cpp:67-69 | a payload under a descriptor with two fields of one name that decodes and does not encode back |
| CodecMeaning.DecodedPlainly | src/backend/value_codec.cpp:48-59 | decoding shows every field in order, under its name and type, each element the text of its own slot of bytes |
| CodecMeaning.EncodedPlainly | src/backend/value_codec.cpp:60-76 | encoding writes the texts of the input of each field's name into the slots of that field, and leaves bytes of no field as the seed or zero |
| ParameterEdit.FieldRows | src/ui/main_window.cpp:43-48 | the rows are exactly the places a text can stand, each once, fields and elements in order |
| ParameterEdit.EditedFields | src/ui/main_window.cpp:49-54 | the value whose every row holds the typed text, unchanged elsewhere |
| ParameterEdit.Overlay | src/ui/main_window.cpp:692-701 | refused exactly when a shown field is missing or of another type; otherwise every place of the fresh value holds the last changed text that belongs there by name, or its own |
| ParameterEdit.OverlayByName | src/ui/main_window.cpp:695-700 | with distinct shown names, in whatever order the fresh fields stand, each edited text shows in the field of its name and all else is fresh |
| WholeEdit.OnlyEditedElementsChange | src/ui/main_window.cpp:681-702 | the whole edit goes through if and only if names are distinct, typed texts are values and the rest is finite; then edited elements hold what was typed, other elements the fresh bytes, undeclared bytes the stored ones |
| WholeEdit.EditRefused | src/ui/main_window.cpp:682-685 | an edited form is refused by the encoder only with a code that counts as bad input, so typing never makes the form stale by itself |
| ParameterEditor.Editor.Render | src/ui/main_window.cpp:626-649 | the form shows the decoded payload, one input per row, not edited |
| ParameterEditor.Editor.Edit | src/ui/main_window.cpp:653-664 | the form counts as edited exactly when some input differs from the text shown |
| ParameterEditor.Editor.Apply | src/ui/main_window.cpp:677-709 | a payload is written exactly when the form is edited and valid and reads and encodings succeed, and it is the overlay encoded over the stored payload; unusable input changes nothing, a failed check, read, encoding or write invalidates the form and keeps what was typed as still to be applied, and a failed read back invalidates it with the edit given up |
| ParameterEditor.WritesExactly | src/ui/main_window.cpp:681-702 | an edit is written if and only if names are distinct, the stored payload fits, typed texts are values and the rest is finite |
| ParameterEditor.WrittenPayload | src/backend/kcf_backend.cpp:200-207 | a written payload differs from the fresh one only where the user typed and from the stored one only in declared bytes |
| NetworkRates.ObserveSnapshot | src/backend/network_rates.hpp:23-55 | every route shows the rates its key's history gives, and the new histories are those of the first active route of each key |
| NetworkRates.NetworkRateTracker.Observe | src/backend/network_rates.hpp:23-55 | after any run each key's history is a function of that key's own samples |
| RateLaws.RouteShowsItsKey | src/backend/network_rates.hpp:31-50 | the rates on any active route, repeated keys included, follow from the earlier samples of its key and its own counters |
| RateLaws.WindowStart | src/backend/network_rates.hpp:34-48 | every open window began at an observation since which the key was seen, active, with time and counters growing |
| RateLaws.HistoryOrdered | src/backend/network_rates.hpp:34-50 | in every reachable state the baseline is componentwise at most the latest counters and the start no later than the last time |
| RateLaws.MeasuredEvidence | src/backend/network_rates.hpp:38-48 | a valid rate has an earlier observation as baseline with nothing broken since, spans at least 0.5 s, and its delta is the exact difference |
| RateLaws.MeasuredWhenDue | src/backend/network_rates.hpp:41-43 | an unbroken window is measured as soon as it reaches 0.5 s, and not before |
| RateLaws.CountsConserved | src/backend/network_rates.hpp:34-50 | over a segment, emitted deltas plus the open window equal last minus first counters, for each of the nine |
| RateLaws.TimeConserved | src/backend/network_rates.hpp:39-47 | over a segment, emitted intervals plus the open window equal the elapsed time |
| RateLaws.ShownExactly | src/backend/network_rates.hpp:34-48 | the status, interval, nine deltas and four rates shown at any observation, from the samples alone: nothing after a break, the age of a window under half a second, the exact gain over the window after that |
| RateLaws.KeyIdentifies | src/backend/network_rates.hpp:31-33 | routes share a history if and only if gateway generation, both ends, both sessions, route id and direction agree |
| RateLaws.SampleExactly | src/backend/network_rates.hpp:25-50 | a key's sample is the counters of the first active route with it in an answered query; otherwise the key was not seen |
| Conversion.HexInjective | src/backend/network_backend.cpp:24-29 | host keys are one to one with host identities |
| Conversion.ConvertedColonFree | src/backend/network_backend.cpp:105-107 | converted identities hold no colon in their ids |
| Conversion.ConvertDiagnostics | src/backend/network_backend.cpp:108-123 | the loop converts every route of the answer in order |
| Conversion.ConvertedInjective | src/backend/network_backend.cpp:105-123 | two answers converted alike at one clock reading are equal |
| Conversion.HexDigits | src/backend/network_backend.cpp:24-29 | each byte becomes two lower-case hexadecimal digits, the high half first |
| Conversion.ConvertedPlainly | src/backend/network_backend.cpp:105-123 | every route keeps its ends, sessions, id, direction, state and counters, and the answer its gateway, clock reading and truncation |
| DiagnosticsCache.RefreshAllEntries | src/backend/network_backend.cpp:134-139 | the loop over the peers refreshes each peer's old entry once and leaves other entries alone |
| DiagnosticsCache.ReconciledInStep | src/backend/network_backend.cpp:130-140 | reconciling any sound cache with any peers leaves exactly the peers' hosts, each entry of the peer's generation with its eligibility or an answer |
| DiagnosticsCache.ReconciledExactly | src/backend/network_backend.cpp:124-140 | an entry on the peer's own generation stays as it is, answer, rates and due time, while the peer is online, compatible and offers diagnostics; any other listed host gets a new entry, due at once, that says why |
| DiagnosticsCache.DueExactly | src/backend/network_backend.cpp:201-202 | due are the listed peers that may be asked and whose time has come |
| DiagnosticsCache.Select | src/backend/network_backend.cpp:201-206 | picks the first due host after the cursor in key order, or the first of all, and none only when none is due |
| NetworkObserver.IndexEndpoints | src/backend/network_backend.cpp:50-53 | the index holds every endpoint of ready peers under its kind and name, so the later lookup is always defined |
| NetworkObserver.Observer.Reconcile | src/backend/network_backend.cpp:130-140 | the erase loop and the refresh loop compute `Reconciled`, and the answers behind each entry are kept, or forgotten with a reset |
| NetworkObserver.Observer.Tick | src/backend/network_backend.cpp:196-221 | after any tick the cache is in step with the published peers: reconciled once if nobody is asked, else reconciled again with the answer filed if the asked generation is still current and dropped otherwise; every entry is sound and is what the answers filed since its last reset make of it |
| NetworkObserver.Observer.Record | src/backend/network_backend.cpp:215-219 | the selected host's entry becomes the answer observed over its prior rates, due again in a second, and no other entry changes |
| NetworkObserver.RecordedInStep | src/backend/network_backend.cpp:212-220 | filing an answer for a generation that is still current keeps the cache in step |
| NetworkObserver.FiledMeans | src/backend/network_backend.cpp:215-219 | a filed answer shows the framework's report route by route, or a timeout or error with its code, and is due again one second after filing |
| NetworkObserver.AnswerRests | src/backend/network_backend.cpp:130-140 | a filed answer outlives every reconciliation that still lists the generation asked, unchanged, and its host is not due for a second |
| NetworkObserver.FiledFollows | src/backend/network_backend.cpp:215-219 | filing an answer keeps every history of the entry that of its key's samples since the reset, and shows the rates those samples decide |
| NetworkObserver.ReloggedFollows | src/backend/network_backend.cpp:130-140 | reconciling keeps every entry in line with the answers since its last reset, whatever peers come and go |
| NetworkObserver.ShownRateEvidence | src/backend/network_rates.hpp:38-48 | a measured rate in the cache spans at least half a second since an earlier answer after the last reset, with the key in every answer between, and is the exact difference of counters |
| NetworkObserver.NextsKept | src/backend/network_backend.cpp:134-137 | reconciling never postpones a host |
| NetworkObserver.StaysDue | src/backend/network_backend.cpp:196-221 | over any run an eligible due host that is passed over is still due |
| NetworkObserver.NoneTwice | src/backend/network_backend.cpp:199-208 | while a due host waits no host is selected twice, whatever hosts come and go |
| NetworkObserver.SelectedWithin | src/backend/network_backend.cpp:199-208 | with hosts from a set of N, a due host that stays eligible is among the next N selections |
| RemoteExecutor.Executor.Submit | src/backend/remote_runtime.hpp:39-40 | refused with the stop or the full code, or queued last; as the step of the protocol |
| RemoteExecutor.Executor.WorkerWake | src/backend/remote_runtime.hpp:44 | takes the oldest job, or answers all queued jobs as canceled and exits |
| RemoteExecutor.Executor.WorkerFinish | src/backend/remote_runtime.hpp:45 | answers the running job with what it was executed to, or with an error if it threw, and waits again |
| RemoteExecutor.Executor.StopStep | src/backend/remote_runtime.hpp:41 | each stage of a Stop call, held by one caller at a time |
| RemoteExecutor.RunKeepsInv | src/backend/remote_runtime.hpp:39-45 | every interleaving of submitters, worker and Stop calls keeps at most 32 queued jobs and the accounting of jobs |
| RemoteExecutor.ExactlyOnePlace | src/backend/remote_runtime.hpp:39-45 | every accepted job is in exactly one of queued, running and answered, and answered once |
| RemoteExecutor.AnsweredInOrder | src/backend/remote_runtime.hpp:44-45 | jobs are answered in the order of acceptance |
| RemoteExecutor.HistoryGrows | src/backend/remote_runtime.hpp:39-45 | answers are final, and nothing is accepted after the stop flag |
| RemoteExecutor.SubmittedIs | src/backend/remote_runtime.hpp:39-40 | a submission is accepted if and only if no stop was requested and fewer than 32 jobs wait, with the command submitted |
| RemoteExecutor.FinishAnswers | src/backend/remote_runtime.hpp:45 | what a job was executed to, or that it failed, is the answer to that job, for good |
| RemoteExecutor.DrainCancels | src/backend/remote_runtime.hpp:44 | every job still queued when the worker stops is answered as canceled, for good |
| RemoteExecutor.AnswerGiven | src/backend/remote_runtime.hpp:44-45 | every answer is the outcome of that job or a cancellation of it while queued |
| RemoteExecutor.StopLeavesNothing | src/backend/remote_runtime.hpp:41-44 | once the worker exited or any Stop returned the queue is empty and every accepted promise is answered, for good |
| RemoteExecutor.StepsRemaining | src/backend/remote_runtime.hpp:44-45 | every worker step lowers a measure that only accepting a job raises |
| RemoteExecutor.WorkerCanStep | src/backend/remote_runtime.hpp:44 | the worker is never stuck while jobs are queued or stopping is set |
| RemoteExecutor.StopCanStep | src/backend/remote_runtime.hpp:41 | the Stop call holding the mutex can always go on, at the latest once the worker exited |
| RemoteExecutor.DrainIsShort | src/backend/remote_runtime.hpp:41-45 | after the stop flag the worker takes at most two more steps in any interleaving |
| RemoteHandles.RemoteRuntime.Run | src/backend/remote_runtime.cpp:28-72 | the tables and the shared counter change exactly as `Execute` says for every command and outcome |
| RemoteHandles.HandlesCountUp | src/backend/remote_runtime.cpp:8 | the k-th handle issued by any runtime is k in 64-bit arithmetic |
| RemoteHandles.HandlesDistinct | src/backend/remote_runtime.cpp:50-69 | no handle is issued twice, across runtimes and purposes, if and only if at most 2^64 were issued |
| RemoteHandles.HandlesNeverCollide | src/backend/remote_runtime.cpp:50-69 | an action and a subscription, or entries of two runtimes, never share a handle |
| RemoteHandles.SubscriptionStays | src/backend/remote_runtime.cpp:45-50 | a subscription stays through any requests other than its own Unsubscribe |
| RemoteHandles.ActionStays | src/backend/remote_runtime.cpp:66 | an action stays until a goal on its runtime finds it terminal |
| RemoteHandles.SubscriptionExactly | src/backend/remote_runtime.cpp:45-50 | until the counter wraps a runtime holds a subscription, for the endpoint asked for, if and only if it issued it and no later Unsubscribe named it |
| RemoteHandles.ActionExactly | src/backend/remote_runtime.cpp:63-69 | until the counter wraps a runtime holds an action if and only if it started it and no later goal past its preparation found it over |
| RemoteHandles.ExecutedPlainly | src/backend/remote_runtime.cpp:28-72 | error, issued handle and both tables after every command, entry by entry |
| GraphModel.ElementIdInjective | src/ui/graph_model.cpp:8-10 | element node ids are one to one with runtimes |
| GraphModel.ChannelIdNames | src/ui/graph_model.cpp:44-45 | a channel's node id determines kind and name, and for a service the registration, whatever the name contains |
| GraphModel.EdgeOfInjective | src/ui/graph_model.cpp:51 | distinct registrations give distinct edges |
| GraphModel.GraphUnique | src/ui/graph_model.cpp:36-71 | snapshot and options determine the graph, its lists and their order |
| GraphFacts.GroupNamed | src/ui/graph_model.cpp:22-36 | a group carries the name of the last application listed under its id, or failing that of its first element, and there are no others |
| GraphFacts.ElementNodes | src/ui/graph_model.cpp:27-34 | the element nodes are the last elements of each identity that the filter lets through, under their names and in their groups |
| GraphFacts.ChannelNodes | src/ui/graph_model.cpp:37-50 | a channel lists only discovered registrations of its kind and name that the options and the filter let through, and all of them; a service node one |
| GraphFacts.ListedIsShown | src/ui/graph_model.cpp:37-50 | every registration let through has its channel node |
| GraphFacts.ListedIsJoined | src/ui/graph_model.cpp:51 | every registration whose element is let through has its edge with that element in the direction of its role |
| GraphFacts.GraphInOrder | src/ui/graph_model.cpp:35-71 | groups stand by id, nodes by kind, group, label and id, edges by start, end, role and endpoint, and a channel's endpoints by process, registration and role |
| GraphBuilder.CollectApplications | src/ui/graph_model.cpp:22-25 | each group is named by the last application with that supervisor |
| GraphBuilder.CollectElements | src/ui/graph_model.cpp:27-34 | other groups are named by their first element, and each node shows the last element let through with its identity |
| GraphBuilder.Draft.Add | src/ui/graph_model.cpp:37-52 | draws a registration once, with its channel and, if its element is shown, its edge; keeps nodes and edges those of the added registrations |
| GraphBuilder.FinishNodes | src/ui/graph_model.cpp:61-68 | nodes and endpoint lists are put in key order with nothing lost |
| GraphBuilder.BuildGraph | src/ui/graph_model.cpp:15-72 | for every snapshot and all options the result is the graph of the snapshot |
| GraphLaws.OrderIndependent | src/ui/graph_model.cpp:15-72 | coherent lists with the same members in any order and repetition give the identical graph |
| GraphLaws.IncoherentDiffers | src/ui/graph_model.cpp:22-34 | contradicting lists have two orders with different graphs |
| GraphLaws.OrderIndependentExactly | src/ui/graph_model.cpp:15-72 | all orders of the lists give one graph if and only if names per supervisor, names and groups per shown identity, and labels per unlisted group agree |
| GraphLaws.OrderMatters | src/ui/graph_model.cpp:22-25 | two orders of one application list with different graphs |
| GraphLaws.FilterDiffers | src/ui/graph_model.cpp:27-34 | an element list whose filtered graph is not the cut one |
| GraphFilter.FilterRestricts | src/ui/graph_model.cpp:27-52 | the filtered graph is the full graph cut down to the group, order kept, if and only if the last element of every identity in the group is in the group |
| GraphFilter.EdgesHang | src/ui/graph_model.cpp:38-51 | every edge joins the element of exactly the registering runtime with the channel holding the registration, both drawn: from the element for a publisher, an owner or a server, to it for a subscriber or a client |
| GraphFilter.EdgeForEach | src/ui/graph_model.cpp:48-51 | there are as many edges as distinct drawn registrations of shown elements |
| NetworkRoutes.RouteEndpointKeyInjective | src/ui/network_graph_model.cpp:11-13 | two identities with colon-free host ids and equal keys are equal |
| NetworkRoutes.RouteEndpointKeyCollides | src/ui/network_graph_model.cpp:11-13 | every identity with a colon in an id shares its key with another |
| NetworkRoutes.RouteEndpointKeyIdentifies | src/ui/network_graph_model.cpp:11-13 | a key belongs to one identity only if and only if neither of its ids holds a colon |
| NetworkRoutes.FindRegistered | src/ui/network_graph_model.cpp:43-45 | finds whether the host has a drawn endpoint of its own for the route |
| NetworkRoutes.CollectEvidence | src/ui/network_graph_model.cpp:38-49 | the map pairs each key with a sending and a receiving claim exactly when there is one |
| NetworkRoutes.AddVerifiedRoutes | src/ui/network_graph_model.cpp:31-67 | appends one edge per key claimed on both sides, in key order, and changes nothing else |
| NetworkRoutes.VerifiedExactly | src/ui/network_graph_model.cpp:39-65 | a route is drawn if and only if a fresh host owning its visible publisher and one owning its visible subscriber report it active in their sessions |
| NetworkRoutes.SidesMeet | src/ui/network_graph_model.cpp:14-21 | with colon-free host ids both sides mean the same two endpoints, each on its own host and session |
| NetworkRoutes.ObservedSidesMeet | src/backend/network_backend.cpp:105-115 | every verified route of a snapshot published from the observer's cache is one route reported from its two endpoints' own hosts |
| NetworkRoutes.RoutesIgnoreOrder | src/ui/network_graph_model.cpp:38-66 | host, route and endpoint order and repetition do not change the list of verified edges, rates in their texts apart |
| NetworkGraph.CollectHostNodes | src/ui/network_graph_model.cpp:139-167 | each node id is decided by its first endpoint, each group by its last, and ownership edges follow the endpoints |
| NetworkGraph.AddRemoteGraph | src/ui/network_graph_model.cpp:123-174 | the result is the base graph, the part of each chosen host, and the verified routes, under all options |
| NetworkGraphLaws.RemoteGraphUnique | src/ui/network_graph_model.cpp:123-174 | local graph, hosts, options and time determine the combined graph |
| NetworkGraphLaws.OwnershipStays | src/ui/network_graph_model.cpp:161-166 | an ownership edge joins a runtime and its endpoint, both drawn for the same host, from the runtime for a provider and to it for a topic or parameter user |
| NetworkGraphLaws.OwnershipInGraph | src/ui/network_graph_model.cpp:123-174 | in the combined graph every edge neither local nor verified joins a runtime and its own endpoint, both drawn for one chosen host, in the direction of ownership |
| NetworkGraphLaws.NothingDangles | src/ui/network_graph_model.cpp:123-174 | under all options every edge of the combined graph, local, ownership or verified, has both ends drawn |
| NetworkGraphLaws.OneHostOnly | src/ui/network_graph_model.cpp:124-127 | choosing one remote host leaves its nodes only, and verified routes only between them |
| NetworkGraphFacts.NetworkEdgesExactly | src/ui/network_graph_model.cpp:14-65 | a network edge is drawn if and only if a fresh host reports the active route as sent from its own drawn publisher, where the edge starts, and a fresh host reports it as received at its own drawn subscriber, where it ends |
| NetworkGraphFacts.PartNodes | src/ui/network_graph_model.cpp:135-170 | a host shows its heading, unless the filtered group is none of its own, and each runtime and wanted endpoint as first mentioned |
| NetworkGraphFacts.PartGroups | src/ui/network_graph_model.cpp:140-142 | its groups are those of all its endpoints, each named by its last |
| NetworkGraphFacts.PartEdges | src/ui/network_graph_model.cpp:161-166 | its edges are exactly those of its endpoints in the group and of a wanted kind, out of the runtime for a provider and into it for a topic or parameter user |
| NetworkGraphFacts.CombinedHolds | src/ui/network_graph_model.cpp:123-127 | the local graph stands first and whole unless switched off or another host is chosen, and every chosen host has its part |
| NetworkGraphFacts.NothingElse | src/ui/network_graph_model.cpp:123-172 | every node is of the local graph or of a chosen host's part |
| NetworkGraphFacts.RoutesInOrder | src/ui/network_graph_model.cpp:36-50 | verified routes stand by publisher, subscriber, their sessions and route id |
| NetworkGraphFacts.PartInOrder | src/ui/network_graph_model.cpp:168-170 | a host's heading stands first, its nodes and its groups by id |
| GatewayText.UnescapeEscape | src/backend/local_gateway.cpp:27-28 | every byte string survives escaping and decoding |
| GatewayText.EscapeUnescape | src/backend/local_gateway.cpp:27-28 | every accepted string is the escape of what it decodes to |
| GatewayText.EscapeJoins | src/backend/local_gateway.cpp:27-28 | a string is escaped byte after byte; `EscapeOne` says how each byte is |
| GatewayText.TextExactly | src/backend/local_gateway.cpp:28 | a string is accepted as a byte string if and only if it is that byte string's escape and within 8192 bytes |
| GatewayText.Text | src/backend/local_gateway.cpp:28 | the decoding loop computes `TextOf` for every document |
| GatewayText.DecimalExactly | src/backend/local_gateway.cpp:24 | accepted are one to twenty digits denoting a 64-bit number, as that number |
| GatewayText.DecimalPrinted | src/backend/local_gateway.cpp:24 | every 64-bit number, printed, is accepted as itself |
| GatewayText.Id | src/backend/local_gateway.cpp:26 | the loop accepts 32 hexadecimal digits, not all zero unless allowed, and lowers their case |
| GatewayText.IdIsCanonical | src/backend/local_gateway.cpp:26 | an accepted identity is in canonical spelling, and accepting it again changes nothing |
| GatewayText.IdExactly | src/backend/local_gateway.cpp:26 | exactly which 32 characters are accepted, and the spelling each becomes |
| GatewayPeers.RuntimeWhole | src/backend/local_gateway.cpp:31 | an accepted runtime has all parts, or, for an application only, none |
| GatewayPeers.ReadTexts | src/backend/local_gateway.cpp:36 | the list of group names, each decoded, or a refusal |
| GatewayPeers.IdentityTextInjective | src/backend/local_gateway.cpp:36 | the string key of an endpoint determines process, start and registration |
| GatewayPeers.Endpoints | src/backend/local_gateway.cpp:36-37 | the endpoints if every entry is well formed and no identity repeats; a refusal if and only if no such list exists |
| GatewayPeers.Peers | src/backend/local_gateway.cpp:34-38 | the peers if every entry is well formed and neither a host nor an endpoint repeats; a refusal if and only if no such list exists |
| GatewayPeers.IdentitiesDistinct | src/backend/local_gateway.cpp:35-36 | an accepted answer never holds one endpoint identity twice, even across peers |
| GatewayFormat.RuntimeExactly | src/backend/local_gateway.cpp:31 | a runtime is accepted as a value if and only if its fields spell it and it is whole |
| GatewayFormat.EndpointExactly | src/backend/local_gateway.cpp:36 | an endpoint entry is accepted as a value if and only if every named field spells that component |
| GatewayFormat.StatusExactly | src/backend/local_gateway.cpp:33 | a status is accepted as a value if and only if every named field spells that component and a running gateway is complete |
| GatewayFormat.PeersExactly | src/backend/local_gateway.cpp:34-38 | an answer is a list of peers if and only if it spells those peers in order, with no host and no endpoint twice |
| GatewayPrint.StatusPrinted | src/backend/local_gateway.cpp:33 | every well-formed status, printed, is accepted as that status |
| GatewayPrint.PeersPrinted | src/backend/local_gateway.cpp:34-38 | every well-formed list of peers, printed, is accepted as that list |
| GatewayPrint.StatusesAccepted | src/backend/local_gateway.cpp:33 | the statuses some document is accepted as are exactly the well-formed ones |
| GatewayPrint.PeerListsAccepted | src/backend/local_gateway.cpp:34-38 | the lists of peers some document is accepted as are exactly the well-formed ones |
| GatewayLink.U32 | src/backend/local_gateway.cpp:43 | the shift loop reads four bytes as a big-endian number |
| GatewayLink.Socket.Transfer | src/backend/local_gateway.cpp:42 | moves in order exactly as far as the attempts carry, the whole buffer or a proper prefix with the error that stopped it |
| GatewayLink.MovedExactly | src/backend/local_gateway.cpp:42 | a transfer succeeds if and only if enough is there and enough was offered, in whatever chunks, before anything failed |
| GatewayLink.TransferFails | src/backend/local_gateway.cpp:41-42 | a transfer fails with the code of the first attempt that ends it: stopped, late, broken, or nothing moved |
| GatewayLink.Socket.Query | src/backend/local_gateway.cpp:46 | sends the request and yields what the incoming bytes and the attempts decide |
| GatewayLink.AskedExactly | src/backend/local_gateway.cpp:46 | a query yields a body if and only if the bytes begin with its frame for the operation and the attempts carry the exchange |
| GatewayLink.FrameParses | src/backend/local_gateway.cpp:46 | a framed body of one byte to one mebibyte is read back whatever follows |
| GatewayLink.ErrorParses | src/backend/local_gateway.cpp:46 | a negative code sent as an error answer arrives as that code |
| GatewayLink.ParsedFrame | src/backend/local_gateway.cpp:46 | only frames of the asked operation with a body within the limit are taken for answers |
| GatewayLink.JudgeExactly | src/backend/local_gateway.cpp:46 | a header announces a body, reports a negative error with none, or breaks the protocol, and which |
| GatewayClient.RunCycle | src/backend/local_gateway.cpp:53 | ready, with everything from the three answers, exactly when they are well-formed and the statuses agree; otherwise bare with the error of the first answer that failed, or that the generation changed |
| GatewayClient.Client.Publish | src/backend/local_gateway.cpp:54 | the snapshot is replaced unless a stop was requested |
| GatewayClient.Client.RequestStop | src/backend/local_gateway.cpp:58 | sets the stop flag and leaves the snapshot alone |
| GatewayClient.Client.FinishStop | src/backend/local_gateway.cpp:58 | after a stop the snapshot is empty, and the class invariant keeps it so |
| GatewayMoments.PublishedMoments | src/backend/local_gateway.cpp:53 | a published snapshot carries exactly the peers of the second moment and the status of the third, in the generation of the first |
| GatewayMoments.PublishedExactly | src/backend/local_gateway.cpp:46-53 | for any parser, three moments are published by some cycle, byte streams and all, if and only if their documents fit the link and parse, and the outer generations agree |
| GatewayMoments.CarriedPossible | src/backend/local_gateway.cpp:33-38 | a gateway moving among well-formed values is one whose documents some parser accepts |
| GatewayMoments.UnmixedExactly | src/backend/local_gateway.cpp:53 | no published snapshot names another generation than its peers were read in, over all cycles, if and only if each change of generation brings one the gateway never had |
| GatewayMoments.SessionsUnmixedExactly | src/backend/local_gateway.cpp:53 | no published snapshot names another session than its peers were read in, over all cycles, if and only if no generation is met again after its session was left |
| Discovery.Associate | src/backend/kcf_backend.cpp:134-135 | a runtime takes the name, supervisor and application of its last listing, or stays unplaced |
| Discovery.Impl.Scan | src/backend/kcf_backend.cpp:106-122 | every scanned runtime contributes an element and the endpoints and services its calls list |
| Discovery.Impl.Settle | src/backend/kcf_backend.cpp:125-137 | pruning, the second association and the renaming of topic owners, for any lists |
| Discovery.KcfBackend.Refresh | src/backend/kcf_backend.cpp:102-139 | success swaps in the whole new cache; failure reports the first failing call and leaves nothing cached |
| Discovery.Select | src/backend/kcf_backend.cpp:28-37 | the only registration of the name in the preferred role, or the only one of the name when none has the role; otherwise missing or ambiguous |
| DiscoveryLaws.RefreshIntegrity | src/backend/kcf_backend.cpp:123-137 | whatever was answered, every record's runtime is a cached live element, every supervisor a cached application of that name, every topic named after its element |
| DiscoveryLaws.ElementsExact | src/backend/kcf_backend.cpp:106-135 | the elements are the scanned runtimes that are still alive, in scan order, each placed by the second supervisor list |
| DiscoveryLaws.PlacedByLast | src/backend/kcf_backend.cpp:132-135 | the last listing over all supervisors decides name, supervisor and application |
| DiscoveryLaws.ElementsPlaced | src/backend/kcf_backend.cpp:123-135 | element by element, the name, supervisor and application of the last current listing, or the executable and standalone or unassigned; and the applications are the current supervisors |
| DiscoveryLaws.RefreshErrors | src/backend/kcf_backend.cpp:103-127 | the first of four list calls to fail decides the error; calls about single processes never do |
| DiscoveryLaws.RefreshExact | src/backend/kcf_backend.cpp:112-131 | the cached topics, parameters and services are exactly those listed by scanned runtimes that are still alive |
| DiscoveryLaws.FirstListForgotten | src/backend/kcf_backend.cpp:104-135 | the first supervisor list does not influence the refreshed cache |
| DiscoveryLaws.EveryRegistrationDrawn | src/ui/graph_model.cpp:37-60 | the unfiltered graph of a refreshed cache has exactly one edge per distinct cached registration |
| DiscoveryLaws.OneSupervisor | src/backend/kcf_backend.cpp:132-135 | a refreshed cache never lists one process under two supervisors |
| DiscoveryLaws.RefreshedCut | src/ui/graph_model.cpp:27-52 | the filtered graph of a refreshed cache is always its full graph cut down to the group |
| DiscoveryLaws.RefreshedCoherent | src/backend/kcf_backend.cpp:132-135 | distinct live processes and agreeing application names make the graph of a refreshed cache independent of list order |
| DiscoveryLaws.SelectIgnoresOrder | src/backend/kcf_backend.cpp:28-37 | the choice by name does not depend on discovery order |
| DiscoveryLaws.ChosenExactly | src/backend/kcf_backend.cpp:28-37 | missing if and only if no registration has the name; chosen if and only if it is the only one of the name in the preferred role, or none is in that role and it is the only one of the name |

## Left out

- Qt widgets, drawing, layout and tree population; of the main window only the parameter form is modelled.
- Sockets, `poll`, credentials, process handles and JSON parsing: a socket is the bytes that will arrive and the outcome of
  each attempt, a document is a parsed value. The limit on nesting depth of a document is not modelled.
- The KCF framework: list calls, queries, storage reads and writes are parameters with arbitrary results. That a successful
  diagnostics query reports the gateway that was asked is an assumption (`AnswersForItself`), as the observer does not check it.
- `kcf::ValidateTypeDescriptor` is not part of this model; the descriptor conditions needed are written as predicates: known
  kinds with the element size of the kind, and, where stated, distinct names and disjoint fields.
- Memory order is fixed as little-endian, where the program copies in the order of the machine.
- Text of floating-point values: printing and reading are parameters under `ExactText`, since stream formatting is library code.
- Rates and intervals are real numbers, not doubles.
- The codes of several simultaneous errors are those of the modelled order of checks; the laws speak of success and bytes.
- ParameterEditor.Editor.Apply: the descriptor is the same in all calls of one Apply, because a registration keeps its type
  while it is valid; the revalidation of the registration between those calls is folded into the results of the calls.
- NetworkObserver.Observer.Tick: one clock reading serves the whole selection pass, because the readings differ only by the
  time of the scan.
- NetworkRoutes.RoutesIgnoreOrder: the rates in the text of an edge are those of the last report on each side, so when one
  side reports a key several times with different rates that text follows the order of the reports.
- NetworkRoutes.ObservedSidesMeet: that the published hosts show the cached diagnostics is a premise, `ShowCache`, because the
  conversion of peers into hosts is not modelled.
- Conversion.ConvertDiagnostics: the name, reason, recovery and error code of a route and the total of routes are copied
  unread, and left out.
- NetworkGraph.AddRemoteGraph: detail and tooltip texts, including the rates in the text of a verified edge, are left out;
  the text keeps its first line with the route id.
- GatewayClient.RunCycle: the three query answers carry no clock, because the one second deadline is one of the outcomes of a
  transfer attempt.
- Conversion of peers for display in `Convert`: pairwise compatibility notes and their limit of 32 candidates, labels, versions
  and capabilities. Only the index of endpoints is modelled.
- The peers of one discovery list have distinct hosts, as the framework keeps one peer per host.
- The type look-ups of a refresh, which decide whether a parameter is writable, and the validation of a registration before use.
- Of remote commands only what touches the handle tables; values, descriptors and replies of the calls are not modelled.
- Threads are interleaved steps: each critical section is one step, and there is no model of weak memory or of scheduling.
- Topic echo, services, the remote workspace, demonstration back ends and the program entry: they add no decision of their own
  to the parts above.
