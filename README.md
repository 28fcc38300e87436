# LinuxBrokerForAVDAccess: a verified model of the broker's logic

LinuxBrokerForAVDAccess brokers Linux session hosts for Azure Virtual Desktop.

- A Flask API keeps a pool of Linux VMs in SQL Server. It hands a VM out at checkout.
- On the allocated host the API creates or updates the user's account over SSH and puts it in the `tsusers` and `appusers` groups.
- The API deletes the accounts of VMs that have been released.
- The API starts and powers off VMs as the scaling rules say.
- Timer tasks call the API: they probe each VM's SSH port, reclaim released VMs and trigger scaling.
- A front end pages through the history logs and posts filtered queries to the API.

This project models the logic that sits between those external calls. The stored procedures, SSH, the key vault, the compute control plane, the clock and randomness are all inputs. Every other step is modelled as the code takes it. That includes the quoting of the chpasswd line at api/app.py:125, whose defect is described under Findings. The shell reads that line in one of three ways:

- as literal text, which is passed to chpasswd;
- as a line with a quote left open, which bash refuses;
- as shell code: an unquoted operator, expansion, glob or brace character. What shell code does depends on the host's programs and files, so each host carries an input, `codeRun`, saying whether bash refuses such a line, its exit status and the line chpasswd gets, if any.

- `RemoteHost` holds the accounts, passwords, groups and memberships of one host. Each remote command is one transition, and its effect and exit status follow the command text.
- `RemoteClient` holds everything outside the API as one value, `Remote`:
  - the hosts;
  - the SSH connections that fail;
  - the log of dispatched commands and their replies;
  - the vault secret, the vault lookups that fail, and the key file.
- Each remote helper is a function from one `Remote` to the next.
- Loops are `method`s proved equal to recursive specification functions. These are `checkout_vm`'s group loop, the reclamation loop, the scaling loop, the connectivity probe and the history forms' field reassignments. The properties are then proved about those functions.

Modules:

- `Wrappers`: Option and Python truthiness.
- `Text`: the username sanitiser, `str.split()`, PEM normalisation.
- `Shell`: how the remote shell reads one quoted word.
- `Credentials`: the generated password and the key file.
- `RemoteHost` and `RemoteClient`: as described above.
- `VmCheckout`, `CheckoutProperties`, `CheckoutOutcome`: `checkout_vm`.
- `Reclamation`, `Scaling`, `PoolApi`, `Authorization`: the rest of the API core.
- `ScheduledTasks`: the timers.
- `Pagination`, `FormDates`, `HistoryForms`, `AddVmForm`, `LoginGate`: the front end.

Where the code and the documented design disagree, the model follows the code:

- The key is fetched from the vault on every remote helper call, not once and then reused. An exception there is raised outside the helper's `try`, so it reaches the caller.
- In `return_released_vm_api` a key exception ends the whole batch with 500. Only a failed `userdel` is isolated per row.
- In `trigger_scaling_logic` an exception from `begin_start` or `begin_power_off` ends the request with 500. The requests issued before it stand.
- In `test_vm_connectivity` a non-200 answer to an update is logged and the scan goes on. An exception while posting ends the scan.
- The history routes of the API map a `'null'` date to None but pass a `'null'` limit through unchanged.
- `checkout_vm` checks the raw username for emptiness and sanitises it afterwards.
- In `token_required`, a non-200 answer from the key-set endpoint gives 500. An exception while fetching the key set gives 401, and so does an exception from the group check.

## Model

| member | source | states |
|---|---|---|
| Text.Sanitize | api/app.py:459 | The sanitised name holds only ASCII letters, digits and `_`, and is no longer than the input |
| Text.SanitizeFixpoint | api/app.py:459 | A string is left unchanged by sanitising iff it is made of word characters only |
| Text.SanitizeEmpty | api/app.py:459 | Sanitising leaves nothing iff the input holds no word character |
| Text.SanitizeIdempotent | api/app.py:459 | Sanitising twice is sanitising once |
| Text.SanitizeKeepsWordChars | api/app.py:459 | Every word character of the input survives, as many times as it occurs, so the result is the order-preserving subsequence of word characters |
| Text.SanitizeAppend | api/app.py:459 | Sanitising distributes over concatenation |
| Text.Words | api/app.py:355-356 | `str.split()` yields only non-empty, whitespace-free tokens |
| Text.WordsOfJoin | api/app.py:355-356 | Splitting a space-joined list of tokens gives the list back |
| Text.WordsAppendSpace | api/app.py:355-356 | The trailing newline of command output does not change the words |
| Text.TokenMembership | api/app.py:355-356 | A name is a word of the space-joined token list iff it is in the list |
| Text.NormalisePem | api/app.py:78 | Normalised key text holds no backslash |
| Text.NormalisePemIdempotent | api/app.py:78 | Text without backslashes is left alone, so normalising twice is normalising once |
| Text.EscapedLineBreakRestored | api/app.py:78 | A key stored with a literal backslash-n between two backslash-free lines gets a real line break there |
| Shell.QuoteArgRoundTrip | api/app.py:125 | The corrected quoting is read back by the shell as exactly the original text, whatever characters it holds |
| Shell.AsWrittenQuoteFree | api/app.py:125 | As written, quote-free text survives the shell unchanged |
| Shell.AsWrittenOddQuote | api/app.py:125 | As written, text with one `'` followed only by literal characters (letters, digits and `_-.,:/@%+=!#^~]}`) leaves a quote open: bash refuses the line. A tail ending in `\` reads differently: `'u:a'\'` reads as `u:a'` |
| Shell.AsWrittenEvenQuotes | api/app.py:125 | As written, text with two `'` around literal characters reaches chpasswd with both quotes removed |
| Shell.AsWrittenWord | api/app.py:125 | As written, a quote-free prefix such as `username:` reaches chpasswd unchanged, followed by the shell's reading of the password |
| Shell.UnquoteShrinks | api/app.py:125 | The shell's reading drops every `'`, adds no character and yields only characters of the input |
| Shell.AsWrittenReadExact | api/app.py:125 | As written, the shell's reading of the password is the password itself iff it holds no `'`, and it holds no line break when the password holds none |
| Shell.AsWrittenShellCode | api/app.py:125 | As written, a character after an odd `'` of the password that is not literal, not a quote and not a backslash (`;`, `|`, `&`, `$`, `*`, `(`, ...) makes the line shell code |
| Credentials.GenerateSecurePassword | api/app.py:142-145 | The password has the requested length, and each character is a letter, a digit or punctuation |
| Credentials.AlphabetFacts | api/app.py:143 | The alphabet has 94 printable characters, none a blank, and contains `'` |
| Credentials.PasswordHasNoLineBreak | api/app.py:142-145 | A generated password never holds a line break |
| Credentials.EveryAlphabetStringIsGenerated | api/app.py:142-145 | Every string over the alphabet, of any length, is the password generated by some draws |
| Credentials.ChooseCoversAll | api/app.py:144 | Any string over an alphabet is chosen by some draws |
| Credentials.Chmod600 | api/app.py:90-97 | After `chmod 0o600` the permission bits are `0o600` and the file-type bits are unchanged |
| Credentials.RetrievePemKey | api/app.py:74-99 | The key is ready iff the secret was fetched and the file is present with mode 600 or could be written or chmod-ed. A present file keeps its text; a new one holds the normalised secret |
| Credentials.RetrievePemKeyReuses | api/app.py:82-97 | A second retrieval with the secret still available returns the file unchanged and cannot fail on the file system |
| RemoteHost.ExecPreservesWF | api/app.py:124-126 | Every provisioning command keeps the host well formed: no account has the empty name, every group name is one word, and every group an account lists exists |
| RemoteHost.EnsureUserEffect | api/app.py:124-126 | With the corrected quoting, ensure-user succeeds iff the account exists or its name is acceptable and not taken by a group. On success it adds the account, with its own group, only if absent, sets exactly the given password and leaves other accounts alone. On failure the host is unchanged |
| RemoteHost.EnsureUserReads | api/app.py:124-126 | Once the shell reads the argument as `u:p`, ensure-user succeeds iff the account exists or can be created, and then the account holds `p`, is created only if absent and other accounts are untouched. On failure the host is unchanged |
| RemoteHost.EnsureUserCodeEffect | api/app.py:124-126 | On a line holding shell code, the exit status is the code's. If bash refuses the line, nothing changes. Otherwise the account exists afterwards iff it existed or could be created, no other account appears, no account's groups change, and a password changes only to what chpasswd's line gives that account |
| RemoteHost.EnsureUserAsWrittenEffect | api/app.py:124-126 | As written, for any password: a quote left open is a syntax error that leaves the host unchanged. Shell code exits with the code's status. Literal text succeeds iff the account exists or can be created; the account then holds the shell's reading of the password, is created only if absent, and other accounts are untouched. On failure the host is unchanged |
| RemoteHost.EnsureUserEmptyName | api/app.py:124-126 | With an empty name no account is created. The command reports success only when the password makes the line shell code whose run exits 0 |
| RemoteHost.EnsureUserTwice | api/app.py:124-126 | After a successful run, a second run keeps the account set. It succeeds iff the second password reads as literal text and the account exists, or the line is shell code whose run exits 0. In the literal case the account then holds that reading with its groups unchanged |
| RemoteHost.DeleteUserAlwaysSucceeds | api/app.py:181 | The delete command exits 0 in every case. Afterwards the account is gone unless it had a session open |
| RemoteHost.DeleteUserIdempotent | api/app.py:181 | Deleting twice is deleting once |
| RemoteHost.GroupMembershipByTokens | api/app.py:350-356 | On a well-formed host the account is in a group iff the group name is a token of `id -nG` output |
| RemoteHost.AddToGroupEffect | api/app.py:373 | `usermod -aG` succeeds iff the account and the group exist, and then the account is in the group. Repeating it changes nothing |
| RemoteHost.CreateGroupEffect | api/app.py:331 | `groupadd` succeeds iff the name is new and acceptable, and then the group exists |
| RemoteHost.QueriesAreReadOnly | api/app.py:312 | `getent group` and `id -nG` change nothing on the host. `getent group` succeeds iff the group exists or the name is empty |
| RemoteHost.AsWrittenOneQuoteRejected | api/app.py:124-126 | As written, a password with one `'` followed only by literal characters fails the whole command and leaves the host unchanged |
| RemoteHost.AsWrittenTwoQuotesAltered | api/app.py:124-126 | As written, a password with two `'` succeeds, but the account gets a password other than the one returned |
| RemoteHost.AsWrittenSemicolonSkipsPassword | api/app.py:124-126 | As written, a `;` after an odd `'` ends the echo. When the rest of the line exits 0 without giving chpasswd a line, ensure-user reports success while the account keeps its old password, or none for a new account |
| RemoteClient.FetchKey | api/app.py:74-99 | A fetch succeeds iff the vault answers this lookup and the key file is usable or can be made so. A successful fetch changes only the key file and the lookup count |
| RemoteClient.FetchKeyAgain | api/app.py:74-97 | Once a retrieval has succeeded, the key stays available. A later retrieval succeeds iff the vault answers its own lookup, and then it changes only the lookup count |
| RemoteClient.KeyStaysAvailable | api/app.py:119-120 | After a helper that got its key, the key stays available. The next helper gets it iff the vault answers the next lookup |
| RemoteClient.FetchesSucceedStep | api/app.py:119-120 | After one successful retrieval, `n + 1` successful retrievals counted from before it are `n` counted from after it |
| RemoteClient.FirstFailedFetch | api/app.py:119-120 | A run of retrievals that does not all succeed has a first one that raises |
| RemoteClient.RunEffect | api/app.py:119-140 | With the key, a reachable host gets exactly the command's effect and reply. An unreachable one is unchanged and the reply is exit 255. Other hosts, the vault and the faults are untouched, and the lookup count goes up by one |
| RemoteClient.RunPreservesWF | api/app.py:119-140 | Helpers keep every host well formed |
| RemoteClient.CreateOrUpdateRemoteUserEffect | api/app.py:119-140 | Returns normally. True iff the host was reachable and either the password reads as literal text and the account existed or could be created, or the line is shell code whose run exits 0. On True with literal text the account holds that reading, which is the password itself iff it has no `'`. A reachable host on which the line leaves a quote open is unchanged |
| RemoteClient.CreateOrUpdateRemoteUserOneQuote | api/app.py:119-140 | As written, a password with one `'` followed only by literal characters never gets True: the helper raises iff the key cannot be fetched, otherwise returns False, and no host changes |
| RemoteClient.CreateOrUpdateRemoteUserCorrectedEffect | api/app.py:119-140 | With the corrected quoting: True iff the host was reachable and the account existed or could be created. Then the account holds exactly the given password |
| RemoteClient.DeleteRemoteUserEffect | api/app.py:176-196 | True iff the host was reachable, whatever the account's state |
| RemoteClient.RemoteGroupExistsEffect | api/app.py:306-323 | True iff the host was reachable and has the group |
| RemoteClient.CreateRemoteGroupEffect | api/app.py:325-342 | True iff the host was reachable and the group was new with an acceptable name; then it exists |
| RemoteClient.IsUserInRemoteGroupEffect | api/app.py:344-365 | True iff the host was reachable, the account exists and lists the group |
| RemoteClient.AddUserToRemoteGroupEffect | api/app.py:367-380 | Returns normally whatever the host does. If the host was reachable and both the account and the group exist, the account is then in the group. An unreachable host is unchanged |
| VmCheckout.CheckoutVm | api/app.py:447-512 | The step-by-step handler computes exactly `Checkout`: the same response, final world and store log |
| VmCheckout.AddMissingMembershipsLoop | api/app.py:493-495 | The group loop computes exactly the recursive membership step over the same groups |
| VmCheckout.Provision | api/app.py:477-506 | Provisioning adds no store call and answers 200 or one of the 500 failures. A 200 returns the given password and the allocated host |
| CheckoutProperties.CheckoutEarlyExits | api/app.py:456-472 | 400 iff the raw username or host is missing or empty; 409 iff no row or a `Message` row; both, and a store failure, come before any remote command |
| CheckoutProperties.CheckoutReachesProvision | api/app.py:459-495 | Past the early exits a checkout is the provisioning sequence for the sanitised name and the generated password on the allocated host. Before them, no 200 and no remote change |
| CheckoutProperties.AllocationNeverUndone | api/app.py:465-512 | The only store operation a checkout issues is the allocation, issued once both fields are present. Nothing releases it |
| CheckoutProperties.ProvisioningFailureKeepsAllocation | api/app.py:477-512 | A provisioning failure answers 500 with the VM still allocated |
| CheckoutProperties.EmptySanitisedNamePassesCheck | api/app.py:456-459 | Every non-empty username without a word character passes the emptiness check, and the allocation runs for the empty name |
| CheckoutProperties.EnsureGroupIssued | api/app.py:485-491 | The group step sends `getent group` and then, only if it answered "missing", `groupadd` |
| CheckoutProperties.MembershipRoundIssued | api/app.py:493-495 | One membership round sends `id -nG` and then, only if the group was not listed, `usermod -aG` |
| CheckoutProperties.MembershipsIssued | api/app.py:493-495 | The loop sends only the membership plan's commands, in order, each `usermod` guarded by its query |
| CheckoutProperties.ProvisionIssued | api/app.py:477-495 | Provisioning dispatches only to the allocated host, in the order user, `tsusers`, `appusers`, memberships |
| CheckoutProperties.CheckoutCommandOrder | api/app.py:447-512 | Every remote command of a checkout goes to the allocated host in the plan's order, and every dependent command follows its guard |
| CheckoutOutcome.RunGrows | api/app.py:306-380 | Group and membership commands only add to a host: accounts, passwords, groups and memberships are kept |
| CheckoutOutcome.EnsureGroupOutcome | api/app.py:485-491 | The group step only grows the host, and a True result means the group exists |
| CheckoutOutcome.MembershipsOutcome | api/app.py:493-495 | The membership loop only grows the host. When no helper raised, each group holds the account unless the `usermod` adding it was lost |
| CheckoutOutcome.UserStepOutcome | api/app.py:480-481 | With a sanitised name and a generated password, a True user step means one of two things. Either the password reads as literal text, the name is not empty and the account holds that reading. Or the line is shell code whose run exits 0 on that host |
| CheckoutOutcome.ProvisionOutcome | api/app.py:477-506 | A 200 from provisioning means one of two things. Either the password reads as literal text, the account holds that reading, both groups exist, and each membership is present or its `usermod` was lost. Or the chpasswd line is shell code whose run exits 0 on that host |
| CheckoutOutcome.CheckoutGrantedProvisions | api/app.py:447-512 | A 200 from a checkout names the allocated host and returns the generated password. If the shell reads the password as literal text, the host holds the account in the provisioned state with that reading, which is the returned password iff it has no `'`. Otherwise the line was shell code whose run exited 0 |
| CheckoutOutcome.OneQuotePasswordFails | api/app.py:458-481 | A generated password with one `'` followed only by literal characters answers 500 after the allocation. With the key the answer is the user-setup failure, without it the generic error. No host changes and the VM stays allocated |
| CheckoutOutcome.SilentMembershipLoss | api/app.py:367-380 | A checkout can answer 200 although a `usermod` never reached the host, leaving the account outside `appusers` |
| Reclamation.Targets | api/app.py:701-710 | At most one target per row, each with a non-empty hostname and username |
| Reclamation.ReturnReleasedVms | api/app.py:684-715 | The row-by-row handler computes exactly `ReturnReleased` |
| Reclamation.DeleteAllDispatches | api/app.py:701-710 | When no key retrieval raises, the loop returns and sends exactly one `userdel` per target, to its host, in row order |
| Reclamation.DeletesSentCons | api/app.py:701-710 | The deletes of a batch are the first target's delete followed by the deletes of the rest |
| Reclamation.DeleteAllStopsAt | api/app.py:701-710 | When the retrieval for target `j` is the first to raise, the loop raises after sending exactly the deletes of the targets before `j` |
| Reclamation.DeleteAllWithoutKey | api/app.py:701-710 | Without the key the first target raises before anything is sent |
| Reclamation.ReturnReleasedOutcome | api/app.py:684-715 | 500 without rows from the store. 200 with nothing sent for an empty batch. For a non-empty batch: 200 listing every row iff no key retrieval raises, with one delete per target; otherwise 500 |
| Reclamation.ReturnReleasedStopsMidBatch | api/app.py:684-715 | A retrieval that raises in the middle of a batch gives 500 after the deletes of the earlier targets were already sent |
| Reclamation.FailedDeleteDoesNotStopBatch | api/app.py:701-710 | A delete that fails on its host still lets every later row's delete be sent |
| Scaling.TriggerScalingLogic | api/app.py:785-825 | The row-by-row handler computes exactly `TriggerScaling` |
| Scaling.ActuateMatchesReference | api/app.py:805-815 | When no call raises, the loop issues exactly the requests the rows call for, in order, and lists the `PowerOn` and `PowerOff` names in row order |
| Scaling.ActuatePrefix | api/app.py:805-815 | The loop only appends: earlier requests are kept, and what it adds is a prefix of the rows' requests |
| Scaling.TriggerScalingOutcome | api/app.py:785-825 | Missing configuration: 500 before any store or compute call. Store failure: 500. 200 iff no call is refused, with both name lists and every request. A refused call: 500 after a prefix of the requests |
| Scaling.ActuateRefusedAccepted | api/app.py:805-815 | A loop that did not raise issued no refused call |
| Scaling.NamesPartitionRows | api/app.py:805-815 | `PowerOn` names, `PowerOff` names and ignored rows partition the rows' names |
| Scaling.PartitionCounts | api/app.py:805-815 | The three lists together are as long as the rows |
| Scaling.PartitionNames | api/app.py:805-815 | The three lists together hold the rows' names as a multiset |
| Scaling.RequestsMatchNames | api/app.py:805-815 | The start requests name exactly the `PowerOn` rows, and the power-off requests the `PowerOff` rows |
| Scaling.IgnoredRowChangesNothing | api/app.py:805-815 | A row of any other action type issues nothing and lists nothing |
| PoolApi.AvailableVm | api/app.py:422-425 | The index found is the first row that is on, reachable and available; None iff no row is |
| PoolApi.AvailableVmOutcome | api/app.py:413-445 | A VM is handed out only if it is on, reachable and available; 404 iff no row of the table is |
| PoolApi.UpdateVmAttributes | api/app.py:516-549 | 400 iff no attribute is given. The store is called iff an attribute is given and the store is reachable. With an attribute: 500 iff there is no connection, 404 iff no row comes back, 200 iff the store returned the row |
| PoolApi.NullToNone | api/app.py:726-729 | The result is never `'null'`; any other value passes unchanged; None iff absent or `'null'` |
| PoolApi.HistoryQueryFacts | api/app.py:757-762 | Both `'null'` dates reach the procedures as None, a `'null'` limit passes unchanged, and mapping twice changes nothing |
| Authorization.ParseAuthorizationShape | api/app.py:209-219 | A header gives a token iff it splits into exactly `Bearer` and one more word, and the token is that word |
| Authorization.BearerRoundTrip | api/app.py:209-219 | `Bearer <token>` gives the token back |
| Authorization.PermissionByClaims | api/app.py:268-287 | The scope and role checks together hold iff some required permission is among the token's scopes or roles |
| Authorization.GrantedIff | api/app.py:202-304 | Access is granted iff the header gave a token that verified and names a user, the group answer was obtained when groups are configured, and the token has a required permission or the group check passed |
| Authorization.NoPermissionsOnlyGroups | api/app.py:268-287 | Without required permissions only the group check grants access |
| Authorization.MalformedHeaderRejected | api/app.py:209-219 | A missing or malformed header is answered 401 before the token is looked at |
| ScheduledTasks.GetHeaders | task/function_app.py:25-33 | None iff there is no token. Otherwise exactly one header, `Authorization` |
| ScheduledTasks.TestVmConnectivity | task/function_app.py:75-149 | The VM-by-VM probe issues exactly the requests of `ConnectivityRequests` |
| ScheduledTasks.TimerGuards | task/function_app.py:82-88 | Without `API_URL` or a token no timer issues a request; with both, each starts with its own request to the API |
| ScheduledTasks.HeadersRoundTrip | task/function_app.py:25-33 | The header the timers send parses back, in the API, to the very token obtained |
| ScheduledTasks.ListingFailureNoUpdates | task/function_app.py:94-98 | A listing that raises or answers non-200 ends the probe with no update posted |
| ScheduledTasks.NetworkStatus | task/function_app.py:112-125 | `Reachable` iff the probe exited 0; an exception gives `Unreachable` |
| ScheduledTasks.WithIpMembers | task/function_app.py:107-109 | The probed VMs are exactly the listed ones with an IP address |
| ScheduledTasks.ProbeLoopPrefix | task/function_app.py:103-144 | The scan posts a prefix of the reference updates, one per VM with an IP, in listing order |
| ScheduledTasks.ProbeLoopEarlierAnswered | task/function_app.py:141-144 | Every post but the last was answered with a status code, whatever its value |
| ScheduledTasks.ProbeLoopStopsAtRaise | task/function_app.py:103-144 | The scan stops short only right after a post whose reply raised |
| ScheduledTasks.ProbeLoopAllAnswered | task/function_app.py:103-144 | When no reply raises, every reference update is posted, non-200 answers included |
| ScheduledTasks.UpdateShape | task/function_app.py:128-139 | Each update goes to the VM's update URL with the timer's headers. It carries `'null'` power state and VM status, and network status `Reachable` iff the probe exited 0. The API counts it as having an attribute to update |
| ScheduledTasks.ConnectivityOutcome | task/function_app.py:75-149 | With a 200 listing and no raising post, the probe issues the listing request and then one update per VM with an IP, in order |
| Pagination.ClampedArg | front_end/route_scaling_management.py:221-223 | A clamped argument is at least 1 and keeps any value at least 1; None iff it is not an integer |
| Pagination.ShowPage | front_end/route_scaling_management.py:219-242 | The page shown has page and per-page both at least 1; None iff an argument is not an integer |
| Pagination.PageOf | front_end/route_scaling_management.py:227-229 | A page holds at most per-page entries, taken from the log in order from its start offset |
| Pagination.TotalPagesIsCeiling | front_end/route_scaling_management.py:224-225 | `total_pages` is the ceiling of items over per-page, and 0 iff the log is empty |
| Pagination.PageFull | front_end/route_vm_management.py:259-268 | Every page before the last is full |
| Pagination.PageEmptyIff | front_end/route_scaling_management.py:224-229 | A page is empty iff its number is past the last page |
| Pagination.PagesUpToPrefix | front_end/route_scaling_management.py:227-229 | The first n pages laid end to end are the first n times per-page entries, or the whole log |
| Pagination.PagesCoverLog | front_end/route_scaling_management.py:219-242 | Pages 1 to `total_pages` laid end to end are the whole log |
| FormDates.ParseIsoDate | front_end/route_scaling_management.py:165-179 | An accepted date is a valid calendar date |
| FormDates.IsoRoundTrip | front_end/route_scaling_management.py:165-179 | Every valid date written `YYYY-MM-DD` is accepted and read back unchanged |
| FormDates.ReformatDate | front_end/route_scaling_management.py:165-179 | A date is reformatted iff it is accepted, and the result has the shape `MM/DD/YYYY` |
| FormDates.ReformatMovesFields | front_end/route_scaling_management.py:165-179 | Reformatting a canonical date only moves its fields: `YYYY-MM-DD` becomes `MM/DD/YYYY` |
| FormDates.FormatUsInjective | front_end/route_scaling_management.py:165-179 | Distinct dates are sent as distinct text |
| FormDates.FormatUsDigits | front_end/route_scaling_management.py:165-179 | `strftime('%m/%d/%Y')` writes month, day and year as their decimal digits, most significant first, padded with zeros |
| FormDates.LeapDayAccepted | front_end/route_scaling_management.py:165-179 | 29 February is accepted in 2024 and 2000 |
| FormDates.LeapDayRejected | front_end/route_scaling_management.py:165-179 | 29 February is refused in 2023 and 1900 |
| FormDates.LenientSpellingsPadded | front_end/route_scaling_management.py:165-179 | A one-digit month or a one-digit or space-padded day is accepted and sent zero-padded |
| FormDates.RejectedSpellings | front_end/route_scaling_management.py:165-179 | Month 13, day 32, year 0 and a two-digit year are refused |
| HistoryForms.NormaliseForm | front_end/route_scaling_management.py:148-187 | The step-by-step field reassignments compute exactly `Normalise` |
| HistoryForms.HandleHistoryPost | front_end/route_scaling_management.py:146-218 | The POST handler computes exactly `HistoryPost` |
| HistoryForms.LimitParam | front_end/route_scaling_management.py:158-159 | The limit sent is never empty |
| HistoryForms.LimitNormalisation | front_end/route_vm_management.py:198-226 | The limit is `'null'` iff `ignore_limit` is set, it is absent or empty, or it was typed `null`; otherwise it is sent as typed |
| HistoryForms.DateNormalisation | front_end/route_scaling_management.py:161-181 | Under `ignore_dates` both dates are `'null'`. Otherwise an empty date is `'null'`, an accepted one is sent reformatted, and a refused one stops the request, the start date first |
| HistoryForms.InvalidDateChangesNothing | front_end/route_vm_management.py:205-221 | A refused date redirects back with nothing sent and the session untouched |
| HistoryForms.AcceptedFormEffects | front_end/route_scaling_management.py:183-218 | An accepted form is stored before the token is checked. A query is sent iff there is a token. The rows key changes only when the API answered, and then to its answer: the rows, or the message object. No other key changes |
| HistoryForms.SearchThenPage | front_end/route_scaling_management.py:208-229 | After a search answered with rows, the pages laid end to end are exactly the rows the API returned |
| HistoryForms.RoutesAreValid | front_end/route_vm_management.py:189-256 | The three routes keep their query and their rows under different session keys |
| HistoryForms.ApiReply | api/app.py:774-777 | The scaling-log and scaling-rules-history endpoints answer an empty result with a message object; otherwise the answer is the rows themselves |
| HistoryForms.PostStoresReply | front_end/route_scaling_management.py:197-210 | An accepted POST with a token whose request did not raise redirects back to the page and stores the API's answer as it came, message object included |
| HistoryForms.HistoryGetOutcome | front_end/route_scaling_management.py:219-242 | The GET fails iff a message object is stored or a page argument is not an integer. Otherwise it shows the stored rows' page, clamped to at least 1, and the ceiling of rows over page size as the page count |
| HistoryForms.StoredEmptyReply | front_end/route_scaling_management.py:315-338 | With the answer to an empty search stored, the scaling routes' GET fails and the VM history route shows an empty page with no pages |
| HistoryForms.EmptyScalingSearchBreaksPaging | front_end/route_scaling_management.py:197-242 | A search that finds nothing on a scaling route redirects back to a page whose GET then fails and goes to the fallback page. On the VM history route it shows an empty page |
| AddVmForm.AddVmBody | front_end/route_vm_management.py:51-60 | No body iff a required field is missing |
| AddVmForm.AddVmBodyFields | front_end/route_vm_management.py:57-59 | Required fields are sent as typed; `username`, `avdhost` and `description` default to the empty string |
| AddVmForm.AddVm | front_end/route_vm_management.py:46-75 | The body is posted iff every required field is there and the session has a token. The caller goes to login iff the fields are there but the token is missing |
| LoginGate.LoginRequired | front_end/function_authentication.py:8-26 | The page either redirects to login or is the handler applied to the unchanged arguments |
| LoginGate.HandledIff | front_end/function_authentication.py:15-25 | The handler runs iff the session has a user and a token and any recorded expiry is not past |
| LoginGate.ExpiryBoundary | front_end/function_authentication.py:21 | At the second of expiry the page is still served; one second later it redirects |
| LoginGate.NoExpiryNeverExpires | front_end/function_authentication.py:19-25 | A signed-in session without a recorded expiry is always served |
| LoginGate.EarlierStillServed | front_end/function_authentication.py:19-25 | A session served now was served at every earlier time |

## Left out

- The SQL Server connection, its password refresh thread (api/app.py:69-72) and the stored procedures are not modelled. The procedures' results are inputs: the allocation rows, the released rows, the scaling rows and the update result. That `CheckoutVm` allocates exclusively is a property of the database and is not stated.
- SSH and `subprocess.run` are reduced to the command text and a reachability input per dispatch. The probe's `curl -v telnet://{ip}:22` command becomes a function from IP address to exit status or exception. An IP address that injects shell text is not modelled.
- The key vault is an input: the secret it holds (None when every lookup raises) and the numbers of the lookups that raise. File system failures are one boolean input.
- RemoteHost.Exec: when the chpasswd line holds shell code, the model does not run that code. The host's `codeRun` input says whether bash refuses the line, the exit status, and the one line chpasswd gets, if any. It is the same for every such line on a given host state. The model assumes the code touches accounts only through the `id -u || useradd` step and that one chpasswd line. Command substitution, redirections to other files and further commands are not modelled. Globs, braces, `$`, backquotes, double quotes and blanks all count as code, even where bash would expand them to plain text.
- CheckoutOutcome.CheckoutGrantedProvisions: when the password makes the line shell code, a 200 only says that the code exited 0 on the host. Nothing is promised about the account, because the code's effect is the `codeRun` input. The same holds for CheckoutOutcome.ProvisionOutcome, CheckoutOutcome.UserStepOutcome and RemoteClient.CreateOrUpdateRemoteUserEffect.
- RemoteHost.IsAccountName: the names `useradd` and `groupadd` accept are an assumption about their defaults: 1 to 32 characters, letters, digits, `_` or `-`, no leading `-`, not all digits. Distributions can configure other rules.
- The compute control plane records the requests it accepted. The set of refused call numbers stands for its exceptions.
- JWKS fetching, `jwt.decode` with its issuer and audience checks, and the Graph calls are inputs. Their outcome is a verification result and an optional group-membership answer.
- `secrets.choice` is a sequence of drawn numbers. The model proves length, alphabet and that every string over the alphabet can be produced; it says nothing about the distribution.
- The clock is an integer number of seconds. `datetime.utcnow().timestamp()` is a float.
- Credentials.Chmod600: the file mode is a 32-bit `mode_t`. Only the low twelve bits change.
- FormDates.ReformatDate: `%Y` is written zero-padded to four digits. glibc's `strftime` writes years below 1000 without padding. `strptime` accepts only ASCII digits here, not every Unicode digit.
- Pagination.ClampedArg: `int()` parsing is abstracted into "an integer" or "not an integer".
- `response.json()` failures and malformed listing entries are left out, as is the reply `add_vm` gets. `vmid` None is sent as the text `None` (`str(None)`) and the model keeps it so.
- LoginGate.LoginRequired: the `user` claims record is a map, and an empty map counts as not signed in. An expiry of 0 is falsy and is not checked.
- Flask wiring is left out: routing, `jsonify`, templates, `flash`, the redirect targets beyond which page they go to, and session persistence. The `flask_caching` memoisation is left out too.
- front_end/route_authentication.py, front_end/app.py, front_end/route_user.py and both config files hold no logic to model. They are not part of this model.
- The other routes of api/app.py are left out: VM and scaling-rule CRUD, release, the remaining history endpoints and the health checks. They pass their arguments to a stored procedure unchanged.

## Findings

| source | as written | input that shows it | evidently intended | confidence | as-written member | corrected member |
|---|---|---|---|---|---|---|
| api/app.py:125 | The chpasswd line is built as `echo '{username}:{password}'`, but the password alphabet of api/app.py:143 contains `'` and every other punctuation character | A generated password `a'b`, with `b` made of literal characters, leaves a quote open, so the command fails and the request answers 500 after the VM is allocated. A password `a'b'c` makes the account's password `abc` while the API returns `a'b'c`. A password `a'b;d` ends the echo at `;`: chpasswd then gets no line from it, and when the rest of the line exits 0 the request answers 200 while the account keeps its old password or has none | Quote the line so that every character of the password reaches chpasswd, writing `'` as `'\''` inside single quotes | not executed | Shell.AsWrittenOddQuote, Shell.AsWrittenEvenQuotes, Shell.AsWrittenShellCode, Shell.AsWrittenReadExact, RemoteHost.AsWrittenOneQuoteRejected, RemoteHost.AsWrittenTwoQuotesAltered, RemoteHost.AsWrittenSemicolonSkipsPassword, CheckoutOutcome.OneQuotePasswordFails | Shell.QuoteArgRoundTrip, RemoteHost.EnsureUserEffect, RemoteClient.CreateOrUpdateRemoteUserCorrectedEffect |
