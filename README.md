# Proctored-exam front end: a Dafny model

This project models the logic inside the React pages of a proctored-exam web application.

- **Test-taking session** (`TakeTest`): a class with one method per event. It covers the countdown with auto-submit, the append-only security-violation log, and the proctoring listeners: tab visibility with a 5-second absence timeout, copy, paste, context menu and restricted shortcuts. It also covers the fullscreen poll, the snapshot check, the device requests of `startTest`, answering, navigation, submit and unmount. The clock label `formatTime` is a pure function.
- **Supervisor roster** (`MonitorTest`): pure functions. They cover the status and search filter, the stable sort by name, status, progress or violation count, the selected participant, the "Hh Mm" label and the flattened violation list.
- **Test authoring** (`TestCreator`): a class for the form, with pure draft editors and the two ordered validators.
- **Results** (`Results`): pure functions for the initial selection, the lookups by id, the rounded class average and the pass/fail tiles.
- **Registration** (`Register`): the ordered validation chain, and a class for the page's error and loading state.
- **Signed-in user** (`AuthContext`): the mock user derived from an email, and a class for login, register, logout and the restore on mount over a single storage slot.
- **Dashboard** (`Dashboard`): the role-based loading and the tab filter.

Browser inputs are parameters:
- clock readings are opaque `now`/`stamp` strings;
- device answers are booleans (`DeviceAnswers`);
- `parseInt` is a function parameter;
- whether stored text parses is the `StoredUser` variant;
- whether the account-creation call rejects is `callRejects`.

Each asynchronous handler is one atomic step. Interval and timeout firings are explicit event methods (`Tick`, `SnapshotTick`, `FullScreenPoll`, `AbsenceTimeoutElapsed`).

Shared helpers live in `wrappers.dfy` (`Option`), `seqs.dfy` and `strings.dfy`:
- `seqs.dfy` has `Filter`, `Find`, `Toggle` and subsequences;
- `strings.dfy` has substring search, ASCII lowercasing, decimal digits, padding and code-point comparison. Strings are sequences of Unicode scalar values, not UTF-16 code units.

## Model

| member | source | states |
|---|---|---|
| TakeTest.Pad2 | src/pages/TakeTest.tsx:148 | `padStart(2, '0')` gives at least two characters, and exactly two iff the number is below 100 |
| TakeTest.Pad2Value | src/pages/TakeTest.tsx:148 | a padded field is all digits and reads back as the number it shows |
| TakeTest.ClockFields | src/pages/TakeTest.tsx:144-146 | hours·3600 + minutes·60 + seconds recombine to the input; minutes and seconds are below 60; hours fit in two digits iff the input is below 360000 |
| TakeTest.FormatTime | src/pages/TakeTest.tsx:143-149 | the label has at least 8 characters with colons 6 and 3 from the end; it is exactly 8 long iff seconds < 360000 |
| TakeTest.ClockLabelShape | src/pages/TakeTest.tsx:148 | with minutes and seconds below 60 the label has colons 6 and 3 from the end, and is 8 long iff the hours are below 100 |
| TakeTest.ParseClockFields | src/pages/TakeTest.tsx:148 | a colon-separated string of digit fields with minutes and seconds below 60 reads back as their clock value |
| TakeTest.ParseJoinedFields | src/pages/TakeTest.tsx:148 | three digit fields joined by colons read back as the seconds they stand for |
| TakeTest.ParseJoinedClock | src/pages/TakeTest.tsx:144-148 | three padded fields joined by colons read back as hours·3600 + minutes·60 + seconds |
| TakeTest.FormatTimeRoundTrip | src/pages/TakeTest.tsx:143-149 | the label loses nothing: parsing `FormatTime(s)` gives back `s` |
| TakeTest.JoinClock | src/pages/TakeTest.tsx:148 | the joined label holds the hour field, a colon, the minute field, a colon and the second field, at fixed offsets from the end |
| TakeTest.LogEntry | src/pages/TakeTest.tsx:232-234 | an entry is the timestamp followed by ": " and the message |
| TakeTest.SeparatorFrom | src/pages/TakeTest.tsx:234 | finds the first ": " at or after a position, or reports that there is none |
| TakeTest.LogEntryRoundTrip | src/pages/TakeTest.tsx:232-234 | an entry whose timestamp holds no ": " splits back into exactly its timestamp and message |
| TakeTest.DecodeModifiersRoundTrip | src/pages/TakeTest.tsx:304 | the "Ctrl+"/"Alt+" prefixes read back as the modifier flags, for a key not starting with C or A |
| TakeTest.RestrictedKeyHead | src/pages/TakeTest.tsx:297-301 | no restricted key name is empty or starts like a modifier name |
| TakeTest.ShortcutMessageRoundTrip | src/pages/TakeTest.tsx:297-304 | every logged shortcut message names exactly the blocked key and modifiers |
| TakeTest.StopStream | src/pages/TakeTest.tsx:76-82 | stopping the tracks leaves no live stream and does not change a stream that was not live |
| TakeTest.ClearTimeout | src/pages/TakeTest.tsx:252-254 | `clearTimeout` on the ref disarms the timeout it names and only that one |
| TakeTest.ChosenOptions | src/pages/TakeTest.tsx:400 | the current answer list is the stored choices, or empty when nothing is stored |
| TakeTest.ArmAbsenceTimeout | src/pages/TakeTest.tsx:248-250 | a hidden tab arms a fresh timeout id, stores it in the ref and keeps the ids issued so far |
| TakeTest.Halt | src/pages/TakeTest.tsx:76-102 | submit and unmount leave no stream live and leave fullscreen; the header flags are kept |
| TakeTest.Recount | src/pages/TakeTest.tsx:120-140 | the countdown interval is armed exactly when test, consent, time left and a mounted page all hold; nothing else changes |
| TakeTest.LoggedAppendsOnly | src/pages/TakeTest.tsx:232-234 | on a mounted page, logging appends exactly one entry at the end; earlier entries stay, and nothing else changes but the re-armed countdown |
| TakeTest.AfterWebcamFacts | src/pages/TakeTest.tsx:152-170 | a refused camera adds exactly its entry; a granted one turns the webcam on; the exam state is untouched |
| TakeTest.AfterMicrophoneFacts | src/pages/TakeTest.tsx:192-206 | a refused microphone adds exactly its entry; a granted one turns the microphone on; the exam state is untouched |
| TakeTest.AfterFullScreenFacts | src/pages/TakeTest.tsx:209-229 | a refused fullscreen adds exactly its entry; a missing API adds nothing; success starts the poll; the exam state is untouched |
| TakeTest.RequestDevicesKeepExam | src/pages/TakeTest.tsx:371-381 | the device requests never change the test, consent, clock, position or answers |
| TakeTest.RequestDevicesLog | src/pages/TakeTest.tsx:367-382 | each refused device the test requires adds one entry, in the order webcam, microphone, fullscreen (the catch branches at lines 166-169, 202-205 and 224-227) |
| TakeTest.RequestDevicesSwitchOn | src/pages/TakeTest.tsx:367-382 | each granted device the test requires is switched on; the others keep their state |
| TakeTest.StartNeverBlocks | src/pages/TakeTest.tsx:367-382 | whatever the devices answer, `startTest` gives consent, sets the clock to duration·60, runs the countdown iff the duration is positive, and logs only the refusals, in order |
| TakeTest.Session.constructor | src/pages/TakeTest.tsx:60-71 | the page mounts with no test, no consent, no answers, an empty log and no timers |
| TakeTest.Session.Load | src/pages/TakeTest.tsx:66-71 | loading the test sets the clock to duration·60 seconds |
| TakeTest.Session.Log | src/pages/TakeTest.tsx:232-238 | the state after logging is `Logged` of the old state with the entry "now: violation" |
| TakeTest.Session.HandleSubmit | src/pages/TakeTest.tsx:74-110 | a submit stops the streams, clears every interval, leaves fullscreen and records one report; nothing guards a second call |
| TakeTest.Session.Tick | src/pages/TakeTest.tsx:124-131 | the clock never rises and drops by at most 1; above 1 it decrements; at 1 or less it submits and shows 0; without a running interval nothing changes |
| TakeTest.Session.InitializeWebcam | src/pages/TakeTest.tsx:152-170 | the new state is the webcam answer applied to the old one |
| TakeTest.Session.InitializeMicrophone | src/pages/TakeTest.tsx:192-206 | the new state is the microphone answer applied to the old one |
| TakeTest.Session.RequestFullScreen | src/pages/TakeTest.tsx:209-229 | the new state is the fullscreen answer applied to the old one |
| TakeTest.Session.StartTest | src/pages/TakeTest.tsx:367-382 | the new state is `Started` of the old one, whose properties `StartNeverBlocks` proves |
| TakeTest.Session.GiveConsent | src/pages/TakeTest.tsx:113-117 | consent (line 368) is given and the clock is reset to the full duration |
| TakeTest.Session.WebcamStep | src/pages/TakeTest.tsx:371-373 | the webcam is requested only when the test requires it |
| TakeTest.Session.MicrophoneStep | src/pages/TakeTest.tsx:375-377 | the microphone is requested only when the test requires it |
| TakeTest.Session.FullScreenStep | src/pages/TakeTest.tsx:379-381 | fullscreen is requested only when the test requires it |
| TakeTest.Session.SnapshotTick | src/pages/TakeTest.tsx:173-189 | a snapshot with no video element or no live stream logs one entry; otherwise nothing changes |
| TakeTest.Session.LeaveFullScreen | src/pages/TakeTest.tsx:218 | leaving fullscreen changes only the document's fullscreen state |
| TakeTest.Session.FullScreenPoll | src/pages/TakeTest.tsx:217-222 | every poll while out of fullscreen clears the flag and logs one entry; otherwise nothing changes |
| TakeTest.Session.VisibilityChange | src/pages/TakeTest.tsx:241-267 | hidden: one "lost focus" entry and a fresh timeout that overwrites the ref; visible: the timeout in the ref is cleared; no effect before consent |
| TakeTest.Session.AbsenceTimeoutElapsed | src/pages/TakeTest.tsx:248-250 | a timeout still armed logs one "extended time away" entry; a cleared one does nothing |
| TakeTest.Session.Copy | src/pages/TakeTest.tsx:272-275 | a copy is prevented and logged exactly while the listeners are attached |
| TakeTest.Session.Paste | src/pages/TakeTest.tsx:277-280 | a paste is prevented and logged exactly while the listeners are attached |
| TakeTest.Session.ContextMenu | src/pages/TakeTest.tsx:317-330 | the context menu is prevented and logged exactly while the listeners are attached |
| TakeTest.Session.KeyDown | src/pages/TakeTest.tsx:293-314 | a key press is prevented and logged iff the listeners are attached and it is a restricted combination; the entry names the combination |
| TakeTest.Session.HandleResponseChange | src/pages/TakeTest.tsx:385-393 | only the current question's key in the answers changes |
| TakeTest.Session.HandleMultipleChoiceChange | src/pages/TakeTest.tsx:396-408 | the option's membership in the current question's choices flips; no other key changes |
| TakeTest.Session.HandleNextQuestion | src/pages/TakeTest.tsx:411-417 | one step forward, except at the last question |
| TakeTest.Session.HandlePrevQuestion | src/pages/TakeTest.tsx:420-424 | one step back, except at the first question |
| TakeTest.Session.SelectQuestion | src/pages/TakeTest.tsx:512 | a question button jumps to its question |
| TakeTest.Session.Unmount | src/pages/TakeTest.tsx:333-364 | unmount detaches the listeners, stops the countdown and the media, and clears the absence timeout in the ref only if consent was given |
| TakeTest.ReturnBeforeTimeout | src/pages/TakeTest.tsx:243-255 | hidden, then visible before 5 s: one "lost focus" entry and no "extended time away" entry |
| TakeTest.RepeatedHiddenLeaksTimeout | src/pages/TakeTest.tsx:248 | two hidden events in a row: the first timeout is no longer in the ref, so "visible" cannot clear it and it still logs |
| TakeTest.ThreeSwitchesOneLong | src/pages/TakeTest.tsx:243-255 | three tab switches, the last longer than 5 s, give exactly four entries |
| TakeTest.WebcamRefusedTestGoesOn | src/pages/TakeTest.tsx:367-393 | a refused required webcam adds one entry, and the test still takes answers |
| TakeTest.SubmitThenExpiry | src/pages/TakeTest.tsx:124-131 | the submit button (line 593) followed by a last tick submits twice |
| MonitorTest.OrderAntisymmetric | src/pages/MonitorTest.tsx:140-152 | swapping the pair negates the comparator |
| MonitorTest.OrderTransitive | src/pages/MonitorTest.tsx:140-152 | "sorts no later than" is transitive for every key |
| MonitorTest.OrderStrictTransitive | src/pages/MonitorTest.tsx:140-152 | going strictly first is preserved past a pair that does not reverse |
| MonitorTest.OrderTieTransitive | src/pages/MonitorTest.tsx:140-152 | ties under the comparator form classes |
| MonitorTest.Insert | src/pages/MonitorTest.tsx:140-152 | inserting adds exactly one element to the multiset |
| MonitorTest.InsertSorted | src/pages/MonitorTest.tsx:140-152 | insertion keeps a sorted list sorted |
| MonitorTest.SortParticipants | src/pages/MonitorTest.tsx:140-152 | the sort is a permutation of its input and sorted by the comparator |
| MonitorTest.NoTieAfterStrict | src/pages/MonitorTest.tsx:140-152 | an element placed strictly before a sorted list has no tie partner in it |
| MonitorTest.SortedTail | src/pages/MonitorTest.tsx:140-152 | the tail of a sorted list is sorted |
| MonitorTest.InsertTieClass | src/pages/MonitorTest.tsx:140-152 | insertion places the new element after all elements tied with it |
| MonitorTest.InsertFrontTieClass | src/pages/MonitorTest.tsx:140-152 | the front case of the tie-class insertion |
| MonitorTest.InsertDeeperTieClass | src/pages/MonitorTest.tsx:140-152 | the deeper case of the tie-class insertion |
| MonitorTest.SortStable | src/pages/MonitorTest.tsx:140-152 | the sort is stable: within each tie class the input order is kept |
| MonitorTest.InsertUnknownKey | src/pages/MonitorTest.tsx:151 | under an unknown key, insertion appends |
| MonitorTest.SortUnknownKey | src/pages/MonitorTest.tsx:151 | under an unknown key, the sort leaves the list unchanged |
| MonitorTest.FilteredParticipants | src/pages/MonitorTest.tsx:127-152 | the roster is a permutation of the matching participants, sorted by the key: progress and violation counts non-increasing, names and statuses ascending |
| MonitorTest.RosterMembership | src/pages/MonitorTest.tsx:127-139 | a participant is on the roster iff its status passes and the query (ignoring case) occurs in its name or email; the roster is a sub-multiset of the participants and no longer |
| MonitorTest.RosterStable | src/pages/MonitorTest.tsx:140-152 | ties keep their order from the participant list; an unknown key leaves the filtered order unchanged |
| MonitorTest.SelectedParticipant | src/pages/MonitorTest.tsx:155-157 | the first participant with the selected id, or none without a selection or a match |
| MonitorTest.TimeRemainingFields | src/pages/MonitorTest.tsx:160-163 | the shown hours and minutes cover all but less than a minute of the time; minutes are below 60 |
| MonitorTest.DigitPrefix | src/pages/MonitorTest.tsx:163 | the length of the leading run of digits |
| MonitorTest.DigitPrefixOf | src/pages/MonitorTest.tsx:163 | a digit string followed by a non-digit has exactly its own length as digit prefix |
| MonitorTest.LabelParses | src/pages/MonitorTest.tsx:163 | any label of two non-empty digit strings in the "Hh Mm" shape reads back as their values |
| MonitorTest.FormatTimeRemainingRoundTrip | src/pages/MonitorTest.tsx:160-164 | the "Hh Mm" label reads back as `s div 3600` hours and `(s mod 3600) div 60` minutes |
| MonitorTest.Flagged | src/pages/MonitorTest.tsx:385-387 | one line per violation of a participant, each tagged with that participant |
| MonitorTest.AllViolationsFlatten | src/pages/MonitorTest.tsx:385-387 | the violations tab lists the flattened violations, position by position |
| MonitorTest.AllViolationsAppend | src/pages/MonitorTest.tsx:385-387 | participant order is kept: the list for `ps + qs` is the list for `ps` then for `qs` |
| MonitorTest.AllViolationsMembership | src/pages/MonitorTest.tsx:385-387 | a line appears iff some participant recorded that violation |
| MonitorTest.NoViolationsNotice | src/pages/MonitorTest.tsx:408 | the empty notice shows iff no participant recorded a violation |
| TestCreator.SettingFromInput | src/pages/TestCreator.tsx:48-56 | a checkbox stores its state, a number input stores `parseInt` of its text, any other input stores its text |
| TestCreator.WithType | src/pages/TestCreator.tsx:69-78 | multiple choice gets four empty options and `[]`; other types get no options and `''`; other fields are unchanged |
| TestCreator.WithOption | src/pages/TestCreator.tsx:81-91 | only option `index` is replaced and the count is kept; without options nothing changes |
| TestCreator.WithCorrectToggled | src/pages/TestCreator.tsx:94-109 | the membership of `index` as a string flips and no other value changes; only a multiple-choice draft with a list answer is affected |
| TestCreator.CorrectToggledTwice | src/pages/TestCreator.tsx:94-109 | toggling the same option twice restores an answer list that did not hold it |
| TestCreator.WithField | src/pages/TestCreator.tsx:59-66 | the change handler writes the text into the named field only |
| TestCreator.ValidateDraft | src/pages/TestCreator.tsx:112-129 | each error iff its check is the first to fail: no text, then missing or empty options, then no correct answer; none iff all pass |
| TestCreator.FreshDraftRejected | src/pages/TestCreator.tsx:112-141 | a reset draft, or a draft just switched to multiple choice, cannot be added as it stands |
| TestCreator.ValidateTest | src/pages/TestCreator.tsx:153-161 | missing title or course first, then an empty question list; none iff both pass |
| TestCreator.InitialFormRejected | src/pages/TestCreator.tsx:153-156 | the form as first shown cannot be submitted |
| TestCreator.RemoveQuestionFacts | src/pages/TestCreator.tsx:145-147 | removal drops every question with the id and keeps every copy of the others, in order |
| TestCreator.RemoveUndoesAdd | src/pages/TestCreator.tsx:145-147 | adding (line 131) a question with a new id and removing that id gives back the list |
| TestCreator.TestCreatorForm.constructor | src/pages/TestCreator.tsx:21-45 | the editor starts with the default settings, no questions and a fresh draft |
| TestCreator.TestCreatorForm.HandleSettingsChange | src/pages/TestCreator.tsx:48-56 | only the named setting changes, to the coerced input value |
| TestCreator.TestCreatorForm.HandleQuestionChange | src/pages/TestCreator.tsx:59-66 | only the draft changes, by `WithField` |
| TestCreator.TestCreatorForm.HandleQuestionTypeChange | src/pages/TestCreator.tsx:69-78 | only the draft changes, by `WithType` |
| TestCreator.TestCreatorForm.HandleOptionChange | src/pages/TestCreator.tsx:81-91 | only the draft changes, by `WithOption` |
| TestCreator.TestCreatorForm.HandleCorrectAnswerChange | src/pages/TestCreator.tsx:94-109 | only the draft changes, by `WithCorrectToggled` |
| TestCreator.TestCreatorForm.AddQuestion | src/pages/TestCreator.tsx:112-142 | reports the draft's first failed check and changes nothing; otherwise appends the draft at the end and resets it; every listed question passes the checks |
| TestCreator.TestCreatorForm.RemoveQuestion | src/pages/TestCreator.tsx:145-147 | the list becomes the questions whose id differs |
| TestCreator.TestCreatorForm.HandleSubmit | src/pages/TestCreator.tsx:150-172 | the outcome is `ValidateTest` of the current settings and questions |
| TestCreator.AddThenCreate | src/pages/TestCreator.tsx:112-172 | a draft without a correct answer is refused; once one is marked it is added, and the test can be created |
| Results.InitialSelection | src/pages/Results.tsx:103-113 | a non-empty `student` parameter wins; otherwise a student gets the first result with their email, if any; otherwise nobody |
| Results.SelectedStudentResults | src/pages/Results.tsx:119-121 | the first result with the selected id, or none without a selection, results or match |
| Results.QuestionFor | src/pages/Results.tsx:188 | each answer is shown with the first question with its id (also line 395) |
| Results.RoundedMean | src/pages/Results.tsx:134 | `(2·sum + n) div (2·n)` is within half a unit of the mean, with halves rounded up |
| Results.RoundedMeanUnique | src/pages/Results.tsx:134 | only one integer is that close to the mean, so `RoundedMean` is `Math.round(sum/n)` |
| Results.SumBounds | src/pages/Results.tsx:133 | the sum of `n` scores within `[lo, hi]` is within `[n·lo, n·hi]` |
| Results.RoundedMeanAtMost | src/pages/Results.tsx:134 | the rounded mean never exceeds an upper bound of the mean |
| Results.RoundedMeanAtLeast | src/pages/Results.tsx:134 | the rounded mean is never below a lower bound of the mean |
| Results.AverageWithinScores | src/pages/Results.tsx:130-135 | the class average of a non-empty list lies within the range of the scores |
| Results.PassFailCounts | src/pages/Results.tsx:284-290 | passed plus failed counts everyone; a student passes iff score ≥ passing score |
| Register.WithInput | src/pages/Register.tsx:26-29 | the change handler updates only the named field |
| Register.Validate | src/pages/Register.tsx:49-63 | each message iff its check is the first to fail: missing fields, mismatch, shorter than 6, no photo; none iff all pass |
| Register.SixCharactersSuffice | src/pages/Register.tsx:57-59 | for any otherwise complete form with matching passwords, it passes iff the password has at least six characters; one to five characters give the too-short message and none gives the missing-fields message |
| Register.RegisterPage.constructor | src/pages/Register.tsx:7-20 | the page starts with an empty student form, no error and not loading |
| Register.RegisterPage.HandleChange | src/pages/Register.tsx:26-29 | only the named field changes |
| Register.RegisterPage.HandleRoleChange | src/pages/Register.tsx:26-29 | only the role changes |
| Register.RegisterPage.HandlePhotoChange | src/pages/Register.tsx:31-43 | only the photo changes |
| Register.RegisterPage.HandleSubmit | src/pages/Register.tsx:45-80 | a failed check sets its message and makes no call; otherwise the error is cleared, the call gets name, email, password and role unchanged, a rejection sets the failure message, and loading ends false |
| Register.FillAndSubmit | src/pages/Register.tsx:45-80 | a mismatch is reported without a call; once corrected, the call receives what was typed |
| AuthContext.BeforeAt | src/contexts/AuthContext.tsx:63 | `split('@')[0]` is the prefix before the first `@`, or the whole address without one |
| AuthContext.LoginUserFacts | src/contexts/AuthContext.tsx:54-66 | the login user has id "123", keeps the email, is named by the local part, and is an instructor iff the email contains "instructor", never an administrator |
| AuthContext.BeforeAtWithoutAt | src/contexts/AuthContext.tsx:63 | an address without `@` names the user after the whole address |
| AuthContext.RegisteredUser | src/contexts/AuthContext.tsx:88-93 | registration keeps name, email and role, and the id is "user_" followed by the clock reading |
| AuthContext.AuthProvider.constructor | src/contexts/AuthContext.tsx:35-37 | nobody is signed in and the provider is loading |
| AuthContext.AuthProvider.Mount | src/contexts/AuthContext.tsx:40-51 | a stored user is restored; non-empty unparseable text is removed; an empty slot is left alone; loading ends false |
| AuthContext.AuthProvider.Login | src/contexts/AuthContext.tsx:54-78 | the current and stored user are both the login user; loading is false and no error is set |
| AuthContext.AuthProvider.Register | src/contexts/AuthContext.tsx:81-105 | the current and stored user are both the registered user; loading is false and no error is set |
| AuthContext.AuthProvider.Logout | src/contexts/AuthContext.tsx:108-111 | storage is cleared and nobody is signed in |
| AuthContext.LoginSurvivesReload | src/contexts/AuthContext.tsx:40-111 | a login is restored by a fresh provider over the same storage, and a logout is not |
| Dashboard.LoadForUser | src/pages/Dashboard.tsx:74-82 | a student loads tests only; an instructor or administrator loads both lists; without a user the lists are kept |
| Dashboard.FilteredTests | src/pages/Dashboard.tsx:84-91 | a test is shown iff it is in the list and matches the named tab; every copy of a matching test is kept; the result is an order-preserving subsequence |
| Dashboard.OtherTabShowsAll | src/pages/Dashboard.tsx:90 | any other tab shows every test, in order |
| Dashboard.TabsDisjoint | src/pages/Dashboard.tsx:85-88 | the two named tabs never share a test |
| Seqs.Find | src/pages/MonitorTest.tsx:156 | `find` gives a match iff one exists, and the first one |
| Seqs.FilterCount | src/pages/TestCreator.tsx:145-147 | `filter` keeps every copy of an accepted value and no copy of a rejected one |
| Seqs.FilterPartition | src/pages/Results.tsx:284-290 | a filter and its complement together count the whole list |
| Seqs.Toggle | src/pages/TakeTest.tsx:403-407 | the toggled value's membership flips and no other value's does; removal drops every copy of the value and keeps every copy of the others; adding appends it at the end |
| Seqs.ToggleTwice | src/pages/TestCreator.tsx:98-102 | toggling twice restores a list that did not hold the value |
| Strings.Contains | src/pages/MonitorTest.tsx:134-135 | `includes` holds iff the substring occurs at some position |
| Strings.ToLowerIdempotent | src/pages/MonitorTest.tsx:134-135 | lowercasing twice is lowercasing once |
| Strings.NatToStringValue | src/pages/MonitorTest.tsx:163 | a number's decimal text reads back as the number |
| Strings.CompareAntisymmetric | src/pages/MonitorTest.tsx:143-145 | swapping the strings negates the comparison, and 0 means equal |
| Strings.CompareTransitive | src/pages/MonitorTest.tsx:143-145 | the string order is transitive |

## Left out

- Rendering, CSS classes, `navigate`, `console` output and `alert` are left out. An alert is modelled as the returned message.
- The supervisor's flag, message and force-end actions are left out. They only log to the console.
- The browser media APIs are left out. `getUserMedia`, `requestFullscreen`/`exitFullscreen` and canvas drawing become boolean answers. Interval and timeout scheduling become explicit firing events.
- `async`/`await` interleavings are left out. Each handler is one atomic step, and `startTest` runs its device requests in order.
- Date and locale formatting are left out. Timestamps are opaque strings.
- `parseInt` is a function parameter.
- `JSON.parse`/`JSON.stringify` and `localStorage` are left out. The store is one optional slot, and whether its text parses is an input.
- `src/App.tsx`, `src/components/Layout.tsx` and `src/pages/Login.tsx` are not part of this model. They hold routing, navigation markup and a thin wrapper around `login`.
- Mock data constants are used only as example values.
- The progress-bar widths are left out. They are floating point.
- MonitorTest.FilteredParticipants: `localeCompare` is approximated by code-point order. The ascending-order contract is stated for that order, not for locale collation.
- Register.Validate: the password length counts Unicode code points, not UTF-16 code units. A password of three characters outside the Basic Multilingual Plane has JavaScript length 6 and passes the source's check, but is too short here.
- Results.InitialSelection: only the effect's first run is modelled, from the empty initial selection. When the effect re-runs because the test, the user or the parameter changed and nothing matches, the source keeps the previous selection, which may be one the user clicked.
- MonitorTest.RosterMembership: lowercasing is ASCII only. Unicode case mapping is not modelled.
- TakeTest.FormatTime: seconds are a natural number. The label for a negative count is not modelled.
- MonitorTest.FormatTimeRemainingRoundTrip: seconds are a natural number. Negative remaining times are not modelled.
- Results.RoundedMean: scores are integers. `Math.round` of a non-integer mean of fractional scores is not modelled.
- Results.QuestionFor: a missing question is `None`. The page itself would throw on `question.text`.
- TestCreator.TestCreatorForm.HandleOptionChange: the index must lie within the options. JavaScript would grow a sparse array for an index past the end, and the form only renders in-range indices.
- TestCreator.WithField: editing the points field stores its text, as the input hands it over. Numeric coercion of points is not modelled, because the source does none.
- TakeTest.Session.HandleResponseChange: the current question must exist. The source would throw on an empty question list.
- TakeTest.Session.HandleMultipleChoiceChange: the current question must exist, for the same reason.
- Register.RegisterPage.HandleRoleChange: the administrator role is excluded, because the role select offers only student and instructor.
- AuthContext.RegisteredUser: the administrator role is excluded, as the parameter's type does.
- Register.RegisterPage.HandleSubmit: the account-creation call is represented by its arguments and by whether it rejects. It is not linked to `AuthContext.AuthProvider.Register`, which never rejects in the mock.
- AuthContext.AuthProvider.Login: the catch branch is not modelled. It sets "Failed to login…" when writing to storage throws, and storage writes are modelled as never failing.
- AuthContext.AuthProvider.Register: the catch branch for a throwing storage write is not modelled, for the same reason.
- TakeTest.Session.SnapshotTick: the captured image itself is not modelled, only the check and its violation entry.
- Some behaviour is kept as the source has it:
  - a second "hidden" event leaks the first absence timeout;
  - nothing prevents a second submit;
  - the snapshot and fullscreen intervals can be armed by a device answer that arrives after unmount;
  - the dashboard keeps its lists when the user signs out.
