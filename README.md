# etcd client boundary of Curve, modelled in Dafny

Curve's `etcdclient` package is a cgo layer between C++ callers and the etcd
v3 Go client. It exports key-value operations (put, get, delete, range list,
two- and three-operation transactions, compare-and-swap), leader election
(campaign, observe, resign) and an object registry. Results the C side cannot
hold directly are parked in that registry behind opaque numeric handles: a
range result, or a won election. Every outcome crosses the boundary as one
member of the closed `EtcdErrCode` enumeration.

This project models the decisions this layer makes between the C boundary and
the store:

- `Codes`: the `EtcdErrCode` enum and `GetErrCode`, which translates a Go error into it.
- `Endpoints`: `GetEndpoint`, which splits a comma-separated endpoint list.
- `KvStore`: the store as a `map<string, string>`. It provides guarded
  transactions of puts and deletes, byte-wise key order, and the contract a
  range read meets.
- `ObjectRegistry`: the registry as a class holding `map<nat, Obj>` and a
  counter that only grows.
- `EtcdClient`: `GenOpList`, the result shaping of Put, Get, Delete, List,
  Txn2, Txn3 and CompareAndSwap, and handle resolution.
- `LeaderElection`: Campaign, Observe and Resign.

Each remote call is a parameter: what the store or the client library
reported (an `Error`, a session lease, a stream of watch and probe events).
The store and the registry are objects that the operations change in place.
Strings are `seq<char>`, with one character standing for one byte of the C
buffers, so a reported length is the sequence length.

## Model

| member | source | states |
|---|---|---|
| `Codes.EtcdErrCode.Number` | thirdparties/etcdclient/etcdclient.go:6-40 | the C enum's numbering lies in 0..26, and a member is numbered at most 16 exactly when it is not one of the system's own codes |
| `Codes.FromGrpcCode` | thirdparties/etcdclient/etcdclient.go:134-171 | gRPC codes 0..16 map to the member with the same number; any other code maps to Unknown; no custom code ever comes out |
| `Codes.FromGrpcCodeOfNumber` | thirdparties/etcdclient/etcdclient.go:134-169 | every gRPC-range member comes back from its own number, so the switch loses no member |
| `Codes.GetErrCode` | thirdparties/etcdclient/etcdclient.go:118-172 | total; nil maps to OK; an etcd server error's code comes first, then a gRPC status code, then context.Canceled, then context.DeadlineExceeded, else Unknown; never a code in 17..26 |
| `Endpoints.Split` | thirdparties/etcdclient/etcdclient.go:91 | at least one field, and no field contains a comma |
| `Endpoints.JoinSplit` | thirdparties/etcdclient/etcdclient.go:90-97 | joining the fields with commas gives back the input |
| `Endpoints.SplitLength` | thirdparties/etcdclient/etcdclient.go:91 | there is one field more than there are commas |
| `Endpoints.SplitJoin` | thirdparties/etcdclient/etcdclient.go:91 | splitting a comma-join of comma-free fields gives back those fields |
| `Endpoints.GetEndpoint` | thirdparties/etcdclient/etcdclient.go:90-97 | the loop returns the fields in order, one per comma-separated field, none containing a comma; they join back to the input; the empty string yields one empty field |
| `KvStore.ApplyAllAppend` | thirdparties/etcdclient/etcdclient.go:282 | applying a transaction's writes is applying them one after the other, in order |
| `KvStore.ApplyAllFrame` | thirdparties/etcdclient/etcdclient.go:282 | a key that no write names keeps its binding or stays absent |
| `KvStore.ListingUnique` | thirdparties/etcdclient/etcdclient.go:239-246 | a range read has exactly one valid answer for a given store and range |
| `KvStore.Store.PointRead` | thirdparties/etcdclient/etcdclient.go:212-218 | a single-key read returns one entry holding the stored value when the key is present, and none otherwise |
| `KvStore.Store.Commit` | thirdparties/etcdclient/etcdclient.go:316-324 | a guarded transaction reports success exactly when the call succeeded and the compare held; only then do its writes land, all of them, in order |
| `ObjectRegistry.Registry.Add` | thirdparties/etcdclient/etcdclient.go:253 | the handle is the counter's value and was never issued before; only that entry is added; the counter moves past it |
| `ObjectRegistry.Registry.Get` | thirdparties/etcdclient/etcdclient.go:462 | returns the stored object exactly when the handle is live |
| `ObjectRegistry.Registry.Remove` | thirdparties/etcdclient/etcdclient.go:486-489 | only that handle is dropped, an unknown handle is a no-op, and the counter is untouched, so the handle is never reissued |
| `EtcdClient.GenOpList` | thirdparties/etcdclient/etcdclient.go:99-116 | fails exactly when some tag is neither OpPut nor OpDelete, stopping at the first such tag; on success it keeps length and order, a put carries key and value and a delete carries only the key |
| `EtcdClient.ClientPut` | thirdparties/etcdclient/etcdclient.go:192-202 | the code is the call's; on success the key holds the value |
| `EtcdClient.ClientDelete` | thirdparties/etcdclient/etcdclient.go:256-266 | the code is the call's; on success the key is gone |
| `EtcdClient.Get` | thirdparties/etcdclient/etcdclient.go:204-225 | a failed call gives (code, nil, 0); an absent key gives (KeyNotExist, nil, 0); otherwise (OK, value, length of value) |
| `EtcdClient.List` | thirdparties/etcdclient/etcdclient.go:228-254 | the range is chosen from the end key: an empty end key lists exactly the keys at or after start, otherwise exactly the keys in [start, end), sorted; on error the reply is (code, 0, 0) and the registry is untouched; on success a fresh handle holds that listing, the handle counter advances by one and the count is the listing's length |
| `EtcdClient.Txn2` | thirdparties/etcdclient/etcdclient.go:268-284 | an unknown tag gives TxnUnkownOp before the store is touched; otherwise the code is the commit's, and a successful commit applies both writes in order |
| `EtcdClient.Txn3` | thirdparties/etcdclient/etcdclient.go:286-302 | the same as Txn2, with three writes |
| `EtcdClient.CasAsWritten` | thirdparties/etcdclient/etcdclient.go:315-324 | when both calls succeed, the key ends at target if it was absent or held prev, and the store is otherwise unchanged; the cases where a call fails are stated too |
| `EtcdClient.CompareAndSwap` | thirdparties/etcdclient/etcdclient.go:304-326 | the code reflects only the second call's error; the store ends as CasAsWritten says |
| `EtcdClient.CasReportsOkWithoutSwap` | thirdparties/etcdclient/etcdclient.go:315-325 | two inputs where OK is reported but the key does not hold target afterwards |
| `EtcdClient.CompareAndSwapChecked` | thirdparties/etcdclient/etcdclient.go:315-325 | the corrected swap: OK exactly when the call succeeded and the key was absent or held prev, and then the key holds target; in every other case the store is unchanged |
| `EtcdClient.GetSingleObject` | thirdparties/etcdclient/etcdclient.go:459-471 | ObjectNotExist exactly for an unknown handle; ErrObjectType exactly for a non-list object; otherwise OK with element 0's value and its length |
| `EtcdClient.GetMultiObject` | thirdparties/etcdclient/etcdclient.go:473-484 | the same three cases, with element `serial` |
| `EtcdClient.SingleIsMultiAtZero` | thirdparties/etcdclient/etcdclient.go:460-484 | the single-object read equals the multi-object read at index 0 |
| `EtcdClient.ListedKeyReadBack` | thirdparties/etcdclient/etcdclient.go:474-480 | every key a list handle covers can be read back through the handle, with the value the store held |
| `EtcdClient.RemoveObject` | thirdparties/etcdclient/etcdclient.go:486-489 | delegates to the registry: only that handle is dropped |
| `EtcdClient.GetLeaderElection` | thirdparties/etcdclient/etcdclient.go:491-503 | yields an election exactly when the handle is live and holds one, and nothing for both an absent and a wrong-typed handle |
| `LeaderElection.SessionTtl` | thirdparties/etcdclient/etcdclient.go:337-339 | a positive session TTL is used as given; zero falls back to the client library's 60 seconds |
| `LeaderElection.Campaign` | thirdparties/etcdclient/etcdclient.go:328-375 | success happens exactly when the session was created and the campaign run under `CampaignDeadline` succeeded, and then a fresh handle holds the election and the handle counter advances by one; any failure gives (CampaignInternalErr, 0) with the registry unchanged; the leader read plays no part; with a zero timeout a failed campaign never failed by a deadline |
| `LeaderElection.CampaignDeadline` | thirdparties/etcdclient/etcdclient.go:349-355 | the campaign has a deadline exactly when the timeout is positive, and then the deadline is that timeout |
| `LeaderElection.ObserveOutcome` | thirdparties/etcdclient/etcdclient.go:396-427 | only ObserverLeaderChange or ObserverLeaderInternal can be returned |
| `LeaderElection.ObserveOutcomeIsFirstTerminal` | thirdparties/etcdclient/etcdclient.go:396-427 | Observe returns the code of the first event that forces a decision, and waits while no event has |
| `LeaderElection.ObserveOutcomeStable` | thirdparties/etcdclient/etcdclient.go:396-427 | once a decision is reached, later events change nothing |
| `LeaderElection.ProbePeriodMs` | thirdparties/etcdclient/etcdclient.go:392 | the probe period is the timeout divided by 5, rounded down |
| `LeaderElection.Observe` | thirdparties/etcdclient/etcdclient.go:377-428 | ObjectNotExist for an absent or wrong-typed handle; otherwise the loop's result is the first terminal outcome: its own name is skipped, another name is ObserverLeaderChange, a closed stream or a failed probe is ObserverLeaderInternal, and a tick with an OK probe continues |
| `LeaderElection.Resign` | thirdparties/etcdclient/etcdclient.go:430-457 | ObjectNotExist for an absent or wrong-typed handle; LeaderResignErr if the leader read or the resignation fails; LeaderResiginSuccess otherwise; the registry entry stays |

## Findings

| source | as written | input that shows it | evidently intended | confidence | as-written member | corrected member |
|---|---|---|---|---|---|---|
| thirdparties/etcdclient/etcdclient.go:315-325 | two separate transactions; the code is the second call's error alone; neither compare outcome and not the first call's error is looked at | store {"k": "a"}, prev "b", target "c", both calls succeed: the code is OK and the store is unchanged. Or: key absent, first call fails with Unavailable, second call succeeds: the code is OK and the key is still absent | OK only when the swap took effect, that is, when the key was absent or held prev and now holds target | medium, not executed | `EtcdClient.CasReportsOkWithoutSwap` | `EtcdClient.CompareAndSwapChecked` |

The model keeps `EtcdClient.CompareAndSwap` as written. The corrected
`EtcdClient.CompareAndSwapChecked` is one transaction with two exclusive
guarded branches. It reports a losing compare as FailedPrecondition.

## Left out

- `NewEtcdClientV3` and `EtcdCloseClient`: connection setup and teardown are I/O on the process-wide client. The endpoint parsing they use is modelled as `GetEndpoint`.
- cgo marshalling (`C.GoStringN`, `C.CString`, freeing) is memory plumbing. Strings are sequences of characters standing for bytes.
- All `fmt.Printf` logging, including the non-OK logging in `GetErrCode` and its operation-name argument.
- Concurrency: the `select` race in Observe is a given sequence of events. The timing link between ticks and the probe period is not modelled. Session keepalive is not modelled.
- The client library's election primitive, sessions and watch streams are parameters. The keys that Campaign writes and Resign deletes in the store, and the election object's internal state, are not modelled.
- `KvStore.Store.Commit`: a failed call is modelled as having no effect. A call that times out may in fact have committed.
- etcd's own request rules are not modelled. These include the rejection of a transaction naming one key twice and the "\x00" range-end convention.
- The registry's implementation is not part of this model. It is the assumed map and counter, and its first handle is a constructor parameter. Handle overflow of the 64-bit counter is not modelled.
- Go panics are preconditions:
  - `EtcdClient.GetSingleObject` on an empty list.
  - `EtcdClient.GetMultiObject` with `serial` out of range.
  - `LeaderElection.Observe` with a timeout below 5 ms on a live election handle, where `time.NewTicker` gets a zero period.
  - `EtcdClient.Get` and `EtcdClient.List` with a failed call whose status code is OK, where the nil response would be read.
- `time.Duration` conversions and their overflow for huge timeouts, the per-tick `defer cancel()` that holds contexts until Observe returns, and the dial timeout.
- `EtcdClient.List`: the store's answer to a range read is a parameter, a function of the selection constrained to give the exact sorted listing (`KvStore.IsListing`) for every selection. The model does not compute it from the map.
