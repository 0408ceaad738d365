# ABA therapy prototype: a Dafny model of its logic layer

The prototype is a single-page app for applied behaviour analysis (ABA) therapy. Under its screens sits a
small layer of pure logic:

- **Data collection.** Recorders collect session data: trial by trial with a response cycle and prompt
  levels, by interval with a countdown that moves through the intervals, or by event count with a rate per
  minute. A countdown timer and the label and colour tables complete this group.
- **Analytics.** Indicators summarise a series of session values: mean, extremes and a trend with a dead
  band. The chart and dashboard cards compute averages, progress and perturbed bar series.
- **Sharing.** A supervisor shares a student's folder with a professional by invitation. The professional
  accepts or rejects it from a bell in the header. An access-request inbox, where requests are approved or
  denied, is modelled from its page although the page is not reachable in the application (see "Left out").
- **Editors.** Medication records can be corrected, evolved with a history, suspended and reactivated.
  Skill and behaviour programs have their own designers. Programs change status on a dashboard, sessions
  keep a list of completed programs, and students are created. The students page's handler for editing a
  student is modelled from its text, although no screen calls it (see "Left out").
- **Filters and validators.** These cover the student, team, program and tab lists and every form.

This project restates that layer as Dafny datatypes and pure functions, one module per source file. It
proves what each operation promises: round trips, counts, bounds, "only the target changes", partitions,
and the state invariants each handler keeps.

A few inputs are taken as parameters, never computed:

- the clock (`now` in milliseconds, today's ISO day, the current calendar date);
- generated ids;
- the random numbers of the mock generators.

JavaScript `Math.round(x)` is modelled as `floor(x + 1/2)` applied to the exact value of `x`, an integer
ratio or a real. The source applies it to a double, so the two can differ where the double falls just
below a half (see "Left out"). One timer firing is one call of a `Tick` function.

## Model

| member | source | states |
|---|---|---|
| DataCollectionTypes.ResponseLabel | src/api/dataCollectionTypes.ts:137-148 | every response has a label, and reading that label back yields the same response (I, A, E, NR) |
| DataCollectionTypes.ResponseFromLabelSound | src/api/dataCollectionTypes.ts:137-148 | any label that reads back as a response is exactly that response's label |
| DataCollectionTypes.ResponseLabelInjective | src/api/dataCollectionTypes.ts:137-148 | two responses with the same label are the same response |
| DataCollectionTypes.ResponseColor | src/api/dataCollectionTypes.ts:150-161 | each response gets its own colour (independent green, prompted yellow, error red, no response gray), which reads back as that response |
| DataCollectionTypes.PromptLevelLabel | src/api/dataCollectionTypes.ts:163-186 | every one of the ten prompt levels has a label that identifies it |
| DataCollectionTypes.PromptLevelLabelInjective | src/api/dataCollectionTypes.ts:163-186 | different prompt levels never share a label |
| DataCollectionTypes.StimulusLabel | src/api/dataCollectionTypes.ts:188-205 | every one of the seven stimulus prompt levels has a label that identifies it |
| DataCollectionTypes.PhaseLabel | src/api/dataCollectionTypes.ts:207-218 | every one of the four phases has a label that identifies it |
| DataCollectionTypes.PhaseColor | src/api/dataCollectionTypes.ts:220-231 | every phase has a colour that identifies it, so the four phase colours are pairwise distinct |
| PercentageRecorder.TrialCountInput | src/features/dataCollection/PercentageRecorder.tsx:122 | an entered non-zero count is kept; an empty or zero entry becomes 10, so the count is never 0 |
| PercentageRecorder.Configure | src/features/dataCollection/PercentageRecorder.tsx:40-49 | exactly n trials numbered 1..n with ids `trial-k`, all without response or prompt level, satisfying the prompt invariant |
| PercentageRecorder.TrialIdInjective | src/features/dataCollection/PercentageRecorder.tsx:42-47 | trial ids built from different numbers differ |
| PercentageRecorder.ConfigureIdsDistinct | src/features/dataCollection/PercentageRecorder.tsx:40-49 | no two configured trials share an id, so a click addresses exactly one trial |
| PercentageRecorder.OrderIndex | src/features/dataCollection/PercentageRecorder.tsx:52 | every response has a position in the order NR, I, A, E |
| PercentageRecorder.NextResponse | src/features/dataCollection/PercentageRecorder.tsx:51-59 | a click moves to the next response in the order, wrapping around; the response always changes |
| PercentageRecorder.PrevResponse | src/features/dataCollection/PercentageRecorder.tsx:51-59 | every response is reached by a click from exactly one response: the cycle is a bijection |
| PercentageRecorder.CycleHasPeriodFour | src/features/dataCollection/PercentageRecorder.tsx:51-59 | four clicks restore the response, and one, two or three clicks never do |
| PercentageRecorder.CycleResponse | src/features/dataCollection/PercentageRecorder.tsx:51-72 | only the clicked trial changes; its response advances and its prompt level survives only if it became prompted; length, order and the prompt invariant are kept |
| PercentageRecorder.SetPromptLevel | src/features/dataCollection/PercentageRecorder.tsx:74-80 | only the chosen trial changes, and it gets the level; the response is not checked |
| PercentageRecorder.SetPromptLevelKeepsInvariant | src/features/dataCollection/PercentageRecorder.tsx:192 | because the menu is enabled only on a prompted trial, choosing a level keeps "prompt level only on prompted trials" |
| PercentageRecorder.SavedSessionIsConsistent | src/features/dataCollection/PercentageRecorder.tsx:287 | a session that can be saved and keeps the invariant has a prompt level on exactly its prompted trials |
| PercentageRecorder.CountsSum | src/features/dataCollection/PercentageRecorder.tsx:82-89 | the four response counts add up to the number of trials |
| PercentageRecorder.CalculateStats | src/features/dataCollection/PercentageRecorder.tsx:82-90 | the counts per response sum to n; the percentage is the nearest integer to 100·independent/n, lies in [0,100], is 0 for no trials and 100 when all are independent |
| RegistroPorcentaje.Init | src/components/RegistroPorcentaje.tsx:19 | n entries, none answered |
| RegistroPorcentaje.NoneCompleted | src/components/RegistroPorcentaje.tsx:133 | a card of empty entries, as the reset button builds, counts no answered trial |
| RegistroPorcentaje.Select | src/components/RegistroPorcentaje.tsx:21-25 | only the chosen index takes the choice; the length and every other entry are kept |
| RegistroPorcentaje.IndependentWithinCompleted | src/components/RegistroPorcentaje.tsx:27-40 | independent answers never exceed answered ones, nor answered ones the entries |
| RegistroPorcentaje.Percentage | src/components/RegistroPorcentaje.tsx:27-40 | no result while fewer than n entries are answered; otherwise exactly 100·independent/n, unrounded |
| RegistroPorcentaje.PercentageOfFullCard | src/components/RegistroPorcentaje.tsx:38-40 | on a full card the percentage is defined, in [0,100], and 100 exactly when every answer is independent |
| RegistroPorcentaje.Finalize | src/components/RegistroPorcentaje.tsx:43-53 | an incomplete card gives the incomplete notice with its counts; the callback receives a value only when the card is complete and a callback exists, and then the notice's percentage |
| RegistroPorcentaje.Progress | src/components/RegistroPorcentaje.tsx:72 | the bar is answered/n·100, in [0,100] when the card has n entries |
| RegistroPorcentaje.ChoiceColor | src/components/RegistroPorcentaje.tsx:55-63 | gray exactly for no answer or "No Responde", green exactly for "Independiente" |
| IntervalRecorder.NumberInput | src/features/dataCollection/IntervalRecorder.tsx:131-139 | an entered non-zero number is kept, an empty or zero entry becomes the default; never 0 |
| IntervalRecorder.Configure | src/features/dataCollection/IntervalRecorder.tsx:65-74 | count unmarked intervals numbered 1..count, the first one current, a full interval on the clock, stopped; valid with count·duration seconds ahead |
| IntervalRecorder.Start | src/features/dataCollection/IntervalRecorder.tsx:76-78 | only the running flag is set |
| IntervalRecorder.Tick | src/features/dataCollection/IntervalRecorder.tsx:38-49 | a stopped or exhausted clock is left alone; a tick never touches the intervals or the configuration |
| IntervalRecorder.TickConsumesOneSecond | src/features/dataCollection/IntervalRecorder.tsx:38-49 | a running tick keeps the state valid, removes exactly one second from the observation, never moves back, and stops exactly when nothing is left |
| IntervalRecorder.RunToCompletion | src/features/dataCollection/IntervalRecorder.tsx:39-47 | left running, the timer stops by itself on the last interval with 0 seconds after exactly the seconds that were left |
| IntervalRecorder.FreshSessionRunsFullLength | src/features/dataCollection/IntervalRecorder.tsx:38-78 | a configured and started session runs count·duration seconds and ends stopped on the last interval |
| IntervalRecorder.RecordOccurrence | src/features/dataCollection/IntervalRecorder.tsx:80-89 | only the current interval is marked, with the seconds left in it; every other interval, the length and the rest of the state are kept |
| IntervalRecorder.OccurredWithinRecorded | src/features/dataCollection/IntervalRecorder.tsx:91-95 | intervals where the behaviour occurred are among the marked ones |
| IntervalRecorder.Percentage | src/features/dataCollection/IntervalRecorder.tsx:91-95 | the nearest integer to 100·occurred/marked over the marked intervals only; 0 when none is marked; in [0,100]; 100 when every marked interval had the behaviour |
| IntervalRecorder.PercentageExample | src/features/dataCollection/IntervalRecorder.tsx:91-95 | for any five intervals marked yes, yes, no, yes and left blank: four recorded, three occurrences, score 75 |
| IntervalRecorder.AllMarkedAreRecorded | src/features/dataCollection/IntervalRecorder.tsx:292 | when every interval is marked, the marked count is the interval count |
| IntervalRecorder.SavedPercentageCoversAll | src/features/dataCollection/IntervalRecorder.tsx:99-104 | a session that can be saved has its percentage taken over all of its intervals |
| FrequencyRecorder.Increment | src/features/dataCollection/FrequencyRecorder.tsx:46-53 | the count grows by one and exactly one event, stamped now, is appended; the stopwatch and the count-equals-log invariant are kept |
| FrequencyRecorder.Decrement | src/features/dataCollection/FrequencyRecorder.tsx:55-60 | nothing at zero; otherwise the count drops by one and the last event goes; the invariant is kept |
| FrequencyRecorder.DecrementUndoesIncrement | src/features/dataCollection/FrequencyRecorder.tsx:46-60 | "-" after "+" restores the state |
| FrequencyRecorder.ToggleTimer | src/features/dataCollection/FrequencyRecorder.tsx:62-64 | only the running flag flips |
| FrequencyRecorder.ToggleTwice | src/features/dataCollection/FrequencyRecorder.tsx:62-64 | toggling twice restores the state |
| FrequencyRecorder.Tick | src/features/dataCollection/FrequencyRecorder.tsx:28-44 | the elapsed seconds grow by exactly one while running and not at all otherwise; nothing else changes |
| FrequencyRecorder.Rate | src/features/dataCollection/FrequencyRecorder.tsx:72-75 | 0 before any second has elapsed; otherwise a whole number of tenths within a twentieth of the exact events per minute, never negative |
| FrequencyRecorder.RateIsRoundedPerMinute | src/features/dataCollection/FrequencyRecorder.tsx:72-75 | once a second has elapsed, the rate is exactly `Math.round` of ten times count/elapsed·60, divided by ten |
| FrequencyRecorder.RateBounds | src/features/dataCollection/FrequencyRecorder.tsx:72-75 | any whole number of tenths within a twentieth of 60·count/elapsed is the rounded integer ratio `Math.round(600·count / elapsed)`, and it is never negative |
| FrequencyRecorder.RateExample | src/features/dataCollection/FrequencyRecorder.tsx:72-75 | thirty events in sixty seconds is 30.0 per minute |
| FrequencyRecorder.Save | src/features/dataCollection/FrequencyRecorder.tsx:77-84 | the record holds the count, the stopwatch reading, the rate and the log, and its count is the log's length |
| FrequencyRecorder.Display | src/features/dataCollection/FrequencyRecorder.tsx:66-70 | the `MM:SS` display reads back as the elapsed seconds |
| Clock.FormatClock | src/hooks/useCountdownTimer.ts:42-46 | minutes, a colon, then two digits of seconds |
| Clock.ParseClock | src/hooks/useCountdownTimer.ts:42-46 | a display that reads back contains the colon |
| Clock.ClockRoundTrip | src/hooks/useCountdownTimer.ts:42-46 | reading a display back gives minutes·60 + seconds, the number it was made from |
| Clock.FormatClockInjective | src/features/dataCollection/FrequencyRecorder.tsx:66-70 | different second counts never show the same display |
| CountdownTimer.Init | src/hooks/useCountdownTimer.ts:14-15 | minutes·60 seconds on the clock, not running |
| CountdownTimer.Start | src/hooks/useCountdownTimer.ts:48 | only the running flag is set |
| CountdownTimer.Pause | src/hooks/useCountdownTimer.ts:49 | only the running flag is cleared |
| CountdownTimer.Reset | src/hooks/useCountdownTimer.ts:50-53 | the timer returns to its initial, stopped, full-length state |
| CountdownTimer.Tick | src/hooks/useCountdownTimer.ts:19-28 | nothing while stopped or at zero; above one second it counts down one; at one second it stops at 0; time never grows |
| CountdownTimer.RunsOut | src/hooks/useCountdownTimer.ts:19-28 | a running timer with k seconds expires and stops after exactly k ticks and is not expired before |
| CountdownTimer.SessionLength | src/hooks/useCountdownTimer.ts:14-28 | a started session of m > 0 minutes expires after m·60 ticks and not one tick earlier |
| CountdownTimer.Formatted | src/hooks/useCountdownTimer.ts:42-46 | the display reads back as the seconds remaining |
| Analytics.MaxOf | src/api/analyticsData.ts:111 | an upper bound of the values that is one of them |
| Analytics.MinOf | src/api/analyticsData.ts:112 | a lower bound of the values that is one of them |
| Analytics.Mean | src/api/analyticsData.ts:101-102 | `sum / n \|\| 0`: mean·n is the sum, and an empty half has mean 0 |
| Analytics.TrendOf | src/api/analyticsData.ts:113 | up iff the difference exceeds 0.5, down iff it is below -0.5, stable otherwise |
| Arith.Round10Unique | src/api/analyticsData.ts:110 | `Math.round(x * 10) / 10` is the only whole number of tenths within a twentieth (half-open) of x, so the band and the tenths property fix the rounded value |
| Analytics.CalculateKPIs | src/api/analyticsData.ts:83-118 | all zeros and stable for no values; otherwise the count, the mean rounded to a tenth (a whole number of tenths within a twentieth of the mean), the max, the min, the last value, the trend of the half means and the trend percentage rounded the same way (0 when the first half's mean is 0) |
| Analytics.AverageWithinRange | src/api/analyticsData.ts:97-112 | the rounded mean lies between the min and the max, up to the rounding |
| Analytics.TrendSignAgrees | src/api/analyticsData.ts:105-106 | from a positive first half, a rise never shows a negative percentage and a fall never a positive one |
| Analytics.SingleSessionTrend | src/api/analyticsData.ts:101-106 | one value is compared against an empty first half of mean 0, with a trend percentage of 0 |
| Analytics.FlatSeriesIsStable | src/api/analyticsData.ts:101-116 | a constant series of two or more values is stable with a 0 percentage |
| Analytics.RisingExample | src/api/analyticsData.ts:83-118 | three values of 10 then three of 50 trend up by 400% |
| Analytics.SteadyExample | src/api/analyticsData.ts:105 | movements within half a unit are stable |
| KPICards.TrendColor | src/features/analytics/KPICards.tsx:11-18 | gray iff stable; green iff the movement is the desirable one for the metric; red iff it is the undesirable one |
| KPICards.OppositeMovesOppositeColors | src/features/analytics/KPICards.tsx:16-17 | up and down get opposite colours, green and red, for every metric |
| KPICards.TrendIcon | src/features/analytics/KPICards.tsx:20 | the icon identifies the trend |
| ProgramChart.Baseline | src/features/charts/ProgramChart.tsx:47 | the first five sessions, or all when fewer |
| ProgramChart.Current | src/features/charts/ProgramChart.tsx:48 | the last five sessions, or all when fewer |
| ProgramChart.CalculateStats | src/features/charts/ProgramChart.tsx:45-65 | on non-empty data: the last percentage, the session count, the rounded means of the baseline and current percentages, and their difference as the improvement |
| ProgramChart.ShortSeriesShowsNoImprovement | src/features/charts/ProgramChart.tsx:47-56 | with five sessions or fewer, baseline and current coincide and the improvement is 0 |
| ProgramChart.RoundedMeanInRange | src/features/charts/ProgramChart.tsx:50-55 | a rounded mean of values in [lo, hi] stays in [lo, hi] |
| ProgramChart.StatsInRange | src/features/charts/ProgramChart.tsx:45-65 | percentages in [0,100] give averages in [0,100] and an improvement in [-100,100] |
| ProgramChart.PhaseAverage | src/features/charts/ProgramChart.tsx:291 | the nearest integer to the slice's sum divided by the phase's nominal length |
| ProgramChart.Slice | src/features/charts/ProgramChart.tsx:291 | `slice(from, to)` clamps both bounds to the length and gives `[]` for an empty range |
| ProgramChart.PhaseTable | src/features/charts/ProgramChart.tsx:274-305 | three rows: sessions 1-5 over 5, 6-15 over 10, 16 on over 5, with the header's averages for the first and last |
| ProgramChart.ShortPhaseUnderstates | src/features/charts/ProgramChart.tsx:291-292 | over a slice shorter than the nominal length a constant level is never overstated, and is exact at full length |
| ProgramChart.ShortInterventionExample | src/features/charts/ProgramChart.tsx:291 | seven intervention sessions at 100% show as 70% |
| ActiveSessionCard.ElapsedMinutes | src/features/dashboard/ActiveSessionCard.tsx:36 | the whole minutes, rounded down, also for a start in the future |
| ActiveSessionCard.ClampedPercentage | src/features/dashboard/ActiveSessionCard.tsx:38-41 | in [0,100], proportional to the minutes for a positive duration; NaN only for 0/0 |
| ActiveSessionCard.CalculateProgress | src/features/dashboard/ActiveSessionCard.tsx:35-43 | elapsed = max(0, minutes), remaining = max(0, duration - minutes), their sum is the duration within the session, remaining is 0 after it |
| ActiveSessionCard.ProgressIsMonotone | src/features/dashboard/ActiveSessionCard.tsx:35-43 | more elapsed time never lowers the elapsed minutes or the percentage, and never raises what remains |
| ActiveSessionCard.HalfwayExample | src/features/dashboard/ActiveSessionCard.tsx:35-43 | thirty minutes into a sixty-minute session is 50%, thirty left, blue |
| ActiveSessionCard.BarColor | src/features/dashboard/ActiveSessionCard.tsx:149-155 | red iff at most 5 minutes remain, orange iff 6 to 15, blue iff more |
| ActiveSessionCard.IsOpened | src/features/dashboard/ActiveSessionCard.tsx:96 | a session never toggled is closed |
| ActiveSessionCard.ToggleSession | src/features/dashboard/ActiveSessionCard.tsx:56-61 | only the given session's panel flips |
| ActiveSessionCard.ToggleTwice | src/features/dashboard/ActiveSessionCard.tsx:56-61 | toggling twice leaves every panel as it was |
| ProgramsBarChart.BaseData | src/features/dashboard/ProgramsBarChart.tsx:12-44 | seven blue bars for "weekly", four violet bars for any other period |
| ProgramsBarChart.Offset | src/features/dashboard/ProgramsBarChart.tsx:52-57 | the deterministic perturbation lies in [-4, 4] |
| ProgramsBarChart.ChartData | src/features/dashboard/ProgramsBarChart.tsx:43-62 | the base series for no student or "all"; otherwise the same bars and colours with each value max(0, base + offset) |
| ProgramsBarChart.TotalWithin | src/features/dashboard/ProgramsBarChart.tsx:64 | if each bar is within k of its base, the total is within k per bar of the base total |
| ProgramsBarChart.StudentWeeklyTotalBounds | src/features/dashboard/ProgramsBarChart.tsx:43-64 | a student's weekly total is between 0 and 25 + 28 |
| ProgramsBarChart.NonNegativeTotal | src/features/dashboard/ProgramsBarChart.tsx:59-64 | bars that are never negative give a total that is never negative |
| ProgramsBarChart.ColorValue | src/features/dashboard/ProgramsBarChart.tsx:66-75 | the five known colours map to their CSS variable, every other colour to gray |
| ProgramsBarChart.StudentExample | src/features/dashboard/ProgramsBarChart.tsx:52-59 | student "s1" gets the bars 2, 6, ..., 1 |
| InvitationsData.AccessBadgeColor | src/pages/SharedAccessPage.tsx:159-170 | blue exactly for full access, yellow exactly for read-only, violet exactly for programs-only |
| InvitationsData.AccessLabel | src/pages/SharedAccessPage.tsx:172-183 | "Acceso Completo" exactly for full access, "Solo Lectura" exactly for read-only, "Solo Programas" exactly for programs-only |
| InvitationsData.AccessBadgesDistinct | src/pages/InvitationsPage.tsx:64-88 | different access levels get different colours and different labels |
| InvitationsData.StatusFor | src/api/invitationsData.ts:68-76 | pending below floor(0.4·count), accepted below floor(0.9·count), rejected from there on |
| InvitationsData.InvitationId | src/api/invitationsData.ts:84 | `inv-` followed by a numeral that reads back as i + 1 |
| InvitationsData.InvitationIdInjective | src/api/invitationsData.ts:84 | different positions give different ids, for any count |
| InvitationsData.MockInvitationFields | src/api/invitationsData.ts:63-96 | round-robin professional, student and level by i modulo each list; status by quota; a message iff i is even; shared by sup-001 |
| InvitationsData.Unsorted | src/api/invitationsData.ts:60-97 | the count invitations in generation order |
| InvitationsData.InsertKeepsSorted | src/api/invitationsData.ts:99-101 | inserting into a list sorted by date, newest first, keeps it sorted |
| InvitationsData.SortByDateDesc | src/api/invitationsData.ts:99-101 | a permutation of its input, sorted newest first |
| InvitationsData.GenerateMockSharedAccess | src/api/invitationsData.ts:27-102 | exactly count invitations, newest first, a permutation of the generated ones |
| InvitationsData.StatusQuotas | src/api/invitationsData.ts:68-76 | the status counts are floor(0.4·count), floor(0.9·count) - floor(0.4·count) and the rest |
| InvitationsData.GeneratedIdsDistinct | src/api/invitationsData.ts:84 | the generated ids are distinct before and after sorting |
| InvitationsData.MockSharedAccessQuotas | src/api/invitationsData.ts:106 | for the shipped count of fifteen: six pending, seven accepted and two rejected, whatever the ages |
| ShareStudentModal.EmailCheckMatchesPattern | src/features/students/ShareStudentModal.tsx:49-50 | the scanner accepts exactly `^[^\s@]+@[^\s@]+\.[^\s@]+$` |
| ShareStudentModal.AcceptedEmailExample | src/features/students/ShareStudentModal.tsx:49 | `ana@mail.com` is accepted |
| ShareStudentModal.RejectedEmailExample | src/features/students/ShareStudentModal.tsx:49 | `ana@mail`, with no dot in the domain, is rejected |
| ShareStudentModal.FindExisting | src/features/students/ShareStudentModal.tsx:56-58 | the first invitation of the same e-mail, ignoring case, to the same student; none iff there is no such invitation |
| ShareStudentModal.ValidateEmail | src/features/students/ShareStudentModal.tsx:43-96 | required iff blank; bad format iff not blank and off the pattern; otherwise the first matching invitation decides: pending, accepted or rejected each give their own error, none means valid |
| ShareStudentModal.ValidEmailIsNew | src/features/students/ShareStudentModal.tsx:55-95 | an accepted e-mail is well formed and not yet invited to that student in any status |
| ShareStudentModal.ChangeEmail | src/features/students/ShareStudentModal.tsx:156-159 | picking a professional sets the e-mail (empty when cleared) and clears its error; nothing else changes |
| ShareStudentModal.ChangeLevel | src/features/students/ShareStudentModal.tsx:175-178 | picking or clearing the level sets it and clears the level error; e-mail, message and e-mail error are kept |
| ShareStudentModal.PickedLevelLeavesEmailToDecide | src/features/students/ShareStudentModal.tsx:99-127 | after a level is picked the share goes out exactly when the e-mail passes, carrying that level, and no level error shows |
| ShareStudentModal.Close | src/features/students/ShareStudentModal.tsx:109-115 | the form returns to empty with no errors |
| ShareStudentModal.Submit | src/features/students/ShareStudentModal.tsx:118-139 | the share goes out iff both validators pass, with an empty message as absent, and the form is cleared; otherwise the form keeps its values and shows both verdicts |
| ShareStudentModal.SubmittedShareIsNew | src/features/students/ShareStudentModal.tsx:118-127 | a submitted share never re-invites someone already invited to that student |
| SharedAccessPage.Initial | src/pages/SharedAccessPage.tsx:30 | the page starts from the registry and is in step with it |
| SharedAccessPage.FreshId | src/pages/SharedAccessPage.tsx:57 | `inv-` followed by a numeral that reads back as the instant |
| SharedAccessPage.NewInvitation | src/pages/SharedAccessPage.tsx:56-68 | a pending invitation of the selected student to the requested e-mail and level, dated now, without professional details |
| SharedAccessPage.ShareSubmit | src/pages/SharedAccessPage.tsx:53-73 | nothing without a selected student; otherwise the new invitation heads both the page and the registry, which stay in step |
| SharedAccessPage.WithoutId | src/pages/SharedAccessPage.tsx:77 | exactly the entries with other ids, in order; a missing id changes nothing |
| SharedAccessPage.CancelAsWritten | src/pages/SharedAccessPage.tsx:76-77 | the page drops the invitation and the registry keeps it |
| SharedAccessPage.Cancel | src/pages/SharedAccessPage.tsx:76-77 | the invitation leaves both lists, which stay in step |
| SharedAccessPage.ConfirmRevokeAsWritten | src/pages/SharedAccessPage.tsx:142-145 | nothing without a selection; otherwise the page drops the access and the registry keeps it |
| SharedAccessPage.ConfirmRevoke | src/pages/SharedAccessPage.tsx:142-145 | the access leaves both lists, which stay in step |
| SharedAccessPage.Resent | src/pages/SharedAccessPage.tsx:88-95 | a copy with a fresh id, today's date and status pending; every other field kept |
| SharedAccessPage.ResendAsWritten | src/pages/SharedAccessPage.tsx:86-95 | the copy heads the page only; the original stays |
| SharedAccessPage.Resend | src/pages/SharedAccessPage.tsx:86-95 | the copy heads both lists, which stay in step |
| SharedAccessPage.SetLevel | src/pages/SharedAccessPage.tsx:119-121 | only the entries with that id change, and only in their level |
| SharedAccessPage.SaveAccessLevelAsWritten | src/pages/SharedAccessPage.tsx:116-125 | nothing without a selection or a new level; otherwise the level changes in the page's list only and the registry is untouched |
| SharedAccessPage.SaveAccessLevel | src/pages/SharedAccessPage.tsx:116-125 | corrected: nothing without a selection or a new level; otherwise the level changes in both lists, which stay in step |
| SharedAccessPage.SetLevelKeepsValidation | src/pages/SharedAccessPage.tsx:116-125 | changing a level never changes what the share form's e-mail check says |
| SharedAccessPage.FindExistingAgrees | src/features/students/ShareStudentModal.tsx:56-58 | two lists agreeing on invitee, student and status find the same duplicate |
| SharedAccessPage.RowActions | src/pages/SharedAccessPage.tsx:376-405 | details always; cancel iff pending; resend iff rejected |
| SharedAccessPage.CancelAndResendExclusive | src/pages/SharedAccessPage.tsx:386-397 | a row never offers both cancel and resend |
| SharedAccessPage.StatusBadge | src/pages/SharedAccessPage.tsx:185-196 | orange "Pendiente" exactly for pending, green "Aceptada" exactly for accepted, red "Rechazada" exactly for rejected |
| SharedAccessPage.StatusBadgesDistinct | src/pages/SharedAccessPage.tsx:185-196 | different statuses get different colours and texts |
| SharedAccessPage.ActiveAccess | src/pages/SharedAccessPage.tsx:210 | exactly the accepted entries, in order |
| SharedAccessPage.OfStudent | src/pages/SharedAccessPage.tsx:213-222 | exactly one student's accesses |
| SharedAccessPage.FindGroup | src/pages/SharedAccessPage.tsx:214 | the position of the student's group; none iff no group has that student |
| SharedAccessPage.GroupedByStudentIsExact | src/pages/SharedAccessPage.tsx:213-222 | one group per student, none empty, each holding exactly that student's accesses in order and named after the first; nothing lost or duplicated |
| SharedAccessPage.AddToKeepsGroups | src/pages/SharedAccessPage.tsx:214-221 | one reduce step keeps the grouping exact |
| SharedAccessPage.GroupMembersBelong | src/pages/SharedAccessPage.tsx:213-222 | every grouped access comes from the list and sits under its own student |
| SharedAccessPage.SyncedValidationMatchesPage | src/features/students/ShareStudentModal.tsx:56 | with the lists in step, the form's check against the registry is the check the page's list would give |
| SharedAccessPage.CancelAsWrittenLeavesStaleInvitation | src/pages/SharedAccessPage.tsx:76-77 | as written, a new invitation that is cancelled vanishes from the page but still blocks a new one as a pending duplicate |
| SharedAccessPage.CancelFreesInvitee | src/pages/SharedAccessPage.tsx:76-77 | corrected, cancelling the only invitation lets the same professional be invited again |
| SharedAccessPage.RevokeAsWrittenLeavesStaleAccess | src/pages/SharedAccessPage.tsx:142-145 | as written, a revoked access vanishes from the page but still blocks a new invitation as existing access |
| SharedAccessPage.RevokeFreesInvitee | src/pages/SharedAccessPage.tsx:142-145 | corrected, revoking the only access lets the professional be invited again |
| SharedAccessPage.SaveLevelAsWrittenLeavesBellStale | src/components/MainLayout.tsx:242 | as written, after a level change the page shows only the new level while the professional's bell still lists the invitation at the old one |
| SharedAccessPage.SaveLevelReachesBell | src/pages/SharedAccessPage.tsx:116-125 | corrected, the bell lists the changed invitation at its new level and never at another |
| SharedAccessPage.ResendAsWrittenNeverReachesBell | src/pages/SharedAccessPage.tsx:86-95 | as written, the resent invitation never reaches the professional's bell |
| SharedAccessPage.ResendReachesBell | src/pages/SharedAccessPage.tsx:86-95 | corrected, the resent invitation is among the professional's pending invitations |
| SharedAccessPage.HandlersKeepSynced | src/pages/SharedAccessPage.tsx:53-145 | every corrected handler keeps the page and the registry in step |
| MainLayout.RefreshInvitations | src/components/MainLayout.tsx:68-77 | for a therapist, exactly the pending invitations to the current e-mail, in order; for any other role, none |
| MainLayout.FindById | src/components/MainLayout.tsx:93 | the first invitation with that id; none iff there is none |
| MainLayout.SetStatus | src/components/MainLayout.tsx:92-103 | the first invitation with that id takes the status whatever it was; nothing else changes; an unknown id changes nothing |
| MainLayout.AcceptInvitation | src/components/MainLayout.tsx:92-103 | an unknown id changes nothing; otherwise the invitation is accepted and the bell is refreshed |
| MainLayout.RejectInvitation | src/components/MainLayout.tsx:105-116 | as accepting, with status rejected |
| MainLayout.AnsweredInvitationLeavesBell | src/components/MainLayout.tsx:70-116 | after accepting or rejecting, that invitation is no longer in the bell, and no other pending one is lost |
| MainLayout.FilteredNavItems | src/components/MainLayout.tsx:126 | every item for other roles; only unrestricted items for a therapist |
| MainLayout.TherapistNavigation | src/components/MainLayout.tsx:118-126 | a therapist sees every entry except the one leading to /shared-access, the rest in their order; other roles see the full list |
| MainLayout.RoleLabel | src/components/MainLayout.tsx:172 | "Admin", "Supervisor", "Aplicador" and "Familia", each exactly for its role (admin, supervisor, therapist, family) |
| MainLayout.RoleColor | src/components/MainLayout.tsx:136-141 | blue exactly for admin, indigo for supervisor, green for therapist, violet for family |
| MainLayout.RoleBadgesDistinct | src/components/MainLayout.tsx:136-172 | different roles get different texts and colours |
| InvitationsPage.SetStatus | src/pages/InvitationsPage.tsx:31-50 | every request with that id takes the status; nothing else changes |
| InvitationsPage.Approve | src/pages/InvitationsPage.tsx:31-36 | the requests with that id become approved, whatever they were, and change in nothing else; the others stay |
| InvitationsPage.Deny | src/pages/InvitationsPage.tsx:45-50 | as approving, with status denied |
| InvitationsPage.PendingInvitations | src/pages/InvitationsPage.tsx:114 | exactly the pending requests, in order |
| InvitationsPage.ProcessedInvitations | src/pages/InvitationsPage.tsx:115 | exactly the answered requests, in order |
| InvitationsPage.PendingAndProcessedPartition | src/pages/InvitationsPage.tsx:114-115 | the two tables together hold each request exactly once |
| InvitationsPage.OthersThan | src/pages/InvitationsPage.tsx:31-50 | exactly the requests with other ids |
| InvitationsPage.AnsweringLeavesPending | src/pages/InvitationsPage.tsx:31-50 | answering a request removes exactly that request from the pending table |
| InvitationsPage.DetailActions | src/pages/InvitationsPage.tsx:354 | approve and deny are offered exactly for a pending request |
| InvitationsPage.ProcessedHasNoActions | src/pages/InvitationsPage.tsx:354 | a request from the history table offers no action |
| InvitationsPage.StatusBadge | src/pages/InvitationsPage.tsx:90-101 | orange "Pendiente" exactly for pending, green "Aprobado" exactly for approved, red "Denegado" exactly for denied |
| Programs.CategoryOf | src/api/programsData.ts:19-59 | the category tag says which variant of the union a program is |
| StudentDetail.EditValues | src/features/students/StudentDetail.tsx:114-124 | the form filled from the record, with a missing note as empty |
| StudentDetail.Correct | src/features/students/StudentDetail.tsx:135-151 | the entered data replaces name, dose, frequency, start date, prescriber and notes; id, status, end date and history are kept |
| StudentDetail.CorrectionWithUnchangedForm | src/features/students/StudentDetail.tsx:114-151 | correcting with an unchanged form gives back the record, with an absent note now empty |
| StudentDetail.Snapshot | src/features/students/StudentDetail.tsx:160-165 | the old record without history, ended today, inactive, otherwise as it was |
| StudentDetail.Evolve | src/features/students/StudentDetail.tsx:160-176 | the new data starting today, with the snapshot of the old record prepended to the history, which grows by one |
| StudentDetail.NewMedication | src/features/students/StudentDetail.tsx:188-198 | an active record with the entered data, no end date and an empty history |
| StudentDetail.SaveMedication | src/features/students/StudentDetail.tsx:127-202 | while editing, only the records with that id change, by correction or by evolution; otherwise one new record is appended |
| StudentDetail.RemoveMedication | src/features/students/StudentDetail.tsx:204-205 | exactly the records with that id go; the rest keep their order |
| StudentDetail.ToggleOne | src/features/students/StudentDetail.tsx:217-228 | the status flips; an end date, today's, exactly when it becomes inactive; nothing else changes |
| StudentDetail.ToggleMedicationStatus | src/features/students/StudentDetail.tsx:214-232 | only the records with that id toggle |
| StudentDetail.ToggleTwice | src/features/students/StudentDetail.tsx:214-232 | two toggles restore every status, and an active record without end date entirely |
| StudentDetail.ProgramsOf | src/features/students/StudentDetail.tsx:71 | exactly the student's programs, in order |
| StudentDetail.MergeSkill | src/features/students/StudentDetail.tsx:276 | the designer's fields replace the program's; id, student, status and creation are kept and the modification time set |
| StudentDetail.NewSkill | src/features/students/StudentDetail.tsx:284-299 | an active skill program of this student, created today, carrying the designer's fields |
| StudentDetail.SaveSkillProgram | src/features/students/StudentDetail.tsx:273-310 | with a selection only the programs with its id are merged; without one a new program is appended |
| StudentDetail.EditSkillAsWrittenErasesSteps | src/features/students/StudentDetail.tsx:770-775 | as written, editing a skill program opens the blank form the designer was mounted with, and saving it with a valid name and objective leaves the program with no steps |
| StudentDetail.EditSkillUnchangedKeepsProgram | src/features/students/StudentDetail.tsx:273-282 | corrected, opening a valid program and saving it unchanged keeps its texts, steps, sets, id and status |
| StudentDetail.EditBehaviorAsWrittenErasesCrisisPlan | src/features/students/StudentDetail.tsx:778-783 | as written, editing a behaviour plan opens the blank mounted form, and saving it once the required fields are typed empties the plan's crisis plan |
| StudentDetail.SavedSkillReopens | src/features/students/StudentDetail.tsx:273-310 | corrected, a designer re-initialised from the saved program shows exactly what was saved |
| StudentDetail.MergeBehavior | src/features/students/StudentDetail.tsx:314 | the designer's fields replace the plan's; id, student, status and creation are kept |
| StudentDetail.NewBehavior | src/features/students/StudentDetail.tsx:322-336 | an active behaviour plan of this student, created today, carrying the designer's fields |
| StudentDetail.SaveBehaviorProgram | src/features/students/StudentDetail.tsx:312-345 | with a selection only the plans with its id are merged; without one a new plan is appended |
| SkillProgramDesigner.AddStep | src/features/programs/SkillProgramDesigner.tsx:48-51 | one empty step numbered length + 1 is appended; a list numbered 1..n stays numbered |
| SkillProgramDesigner.Renumber | src/features/programs/SkillProgramDesigner.tsx:54 | the same steps in order, numbered 1..n |
| SkillProgramDesigner.RenumberSequential | src/features/programs/SkillProgramDesigner.tsx:54 | renumbering a numbered list changes nothing |
| SkillProgramDesigner.OtherSteps | src/features/programs/SkillProgramDesigner.tsx:54 | exactly the steps with other ids, in order |
| SkillProgramDesigner.RemoveStep | src/features/programs/SkillProgramDesigner.tsx:53-55 | the other steps in order, renumbered 1..n whatever their numbers were |
| SkillProgramDesigner.AddThenRemoveStep | src/features/programs/SkillProgramDesigner.tsx:48-55 | adding a step with a new id and removing it restores a numbered list |
| SkillProgramDesigner.RemoveAbsentStep | src/features/programs/SkillProgramDesigner.tsx:53-55 | removing an unknown id leaves a numbered list as it was |
| SkillProgramDesigner.UpdateStep | src/features/programs/SkillProgramDesigner.tsx:57-59 | only the matching step's description changes |
| SkillProgramDesigner.AddSet | src/features/programs/SkillProgramDesigner.tsx:61-64 | one unnamed set without items is appended |
| SkillProgramDesigner.RemoveSet | src/features/programs/SkillProgramDesigner.tsx:66-68 | exactly the sets with other ids, in order |
| SkillProgramDesigner.MapItems | src/features/programs/SkillProgramDesigner.tsx:74-84 | only the targeted set's items change |
| SkillProgramDesigner.UpdateSetName | src/features/programs/SkillProgramDesigner.tsx:70-72 | only the targeted set's name changes |
| SkillProgramDesigner.ReplaceAt | src/features/programs/SkillProgramDesigner.tsx:79 | only that position changes; an index outside the list changes nothing |
| SkillProgramDesigner.RemoveAt | src/features/programs/SkillProgramDesigner.tsx:83 | that position is dropped if it exists, the rest kept in order |
| SkillProgramDesigner.AddSetItem | src/features/programs/SkillProgramDesigner.tsx:74-76 | the targeted set gains one empty item at the end; the others are untouched |
| SkillProgramDesigner.UpdateSetItem | src/features/programs/SkillProgramDesigner.tsx:78-80 | only the item at that index of the targeted set changes |
| SkillProgramDesigner.RemoveSetItem | src/features/programs/SkillProgramDesigner.tsx:82-84 | only the item at that index of the targeted set goes |
| SkillProgramDesigner.AddThenRemoveItem | src/features/programs/SkillProgramDesigner.tsx:74-84 | adding an item and removing the last one restores the sets |
| SkillProgramDesigner.Initial | src/features/programs/SkillProgramDesigner.tsx:28-40 | blank without a program; otherwise the program's texts, steps and sets |
| SkillProgramDesigner.Validate | src/features/programs/SkillProgramDesigner.tsx:42-45 | name error iff its `length` in UTF-16 code units is under 3; objective error iff under 10 |
| SkillProgramDesigner.EmojiNamePasses | src/features/programs/SkillProgramDesigner.tsx:43 | a two-character name that holds an emoji has `length` 3 and passes the name check |
| Text.Utf16Length | src/features/programs/SkillProgramDesigner.tsx:43-44 | JavaScript's `length`: at least the number of characters and at most twice it |
| Text.Utf16LengthIsCharCount | src/features/programs/SkillProgramDesigner.tsx:43-44 | `length` equals the number of characters exactly when every character lies below U+10000 |
| Text.EmojiCountsTwice | src/features/programs/SkillProgramDesigner.tsx:43 | "😀a" has two characters and `length` 3 |
| SkillProgramDesigner.Submit | src/features/programs/SkillProgramDesigner.tsx:86-88 | submitted iff valid, with the form's values and the current steps and sets |
| BehaviorProgramDesigner.Initial | src/features/programs/BehaviorProgramDesigner.tsx:23-35 | blank with no functions without a program; otherwise the plan's fields |
| BehaviorProgramDesigner.Validate | src/features/programs/BehaviorProgramDesigner.tsx:37-41 | errors iff, in UTF-16 code units, name under 3, topography under 10, definition under 20, or no function chosen |
| BehaviorProgramDesigner.BlankFormFailsEveryCheck | src/features/programs/BehaviorProgramDesigner.tsx:23-41 | the blank form of a new plan fails all four checks |
| BehaviorProgramDesigner.FunctionOptionsComplete | src/features/programs/BehaviorProgramDesigner.tsx:45-50 | the four functions are each offered exactly once |
| BehaviorProgramDesigner.Submit | src/features/programs/BehaviorProgramDesigner.tsx:52-54 | submitted iff valid, unchanged |
| ProgramsDashboard.Initial | src/features/programs/ProgramsDashboard.tsx:45-51 | opens filtered on active programs with nothing selected |
| ProgramsDashboard.Filtered | src/features/programs/ProgramsDashboard.tsx:58-60 | every program for "all", otherwise exactly those with the status, in order |
| ProgramsDashboard.SkillPrograms | src/features/programs/ProgramsDashboard.tsx:62 | exactly the filtered skill programs |
| ProgramsDashboard.BehaviorPrograms | src/features/programs/ProgramsDashboard.tsx:63 | exactly the filtered behaviour programs |
| ProgramsDashboard.CategoriesPartition | src/features/programs/ProgramsDashboard.tsx:62-63 | the two lists together hold each filtered program exactly once |
| ProgramsDashboard.StatusColor | src/features/programs/ProgramsDashboard.tsx:65-73 | green exactly for active, blue for achieved, yellow for paused, red for discontinued |
| ProgramsDashboard.StatusLabel | src/features/programs/ProgramsDashboard.tsx:75-83 | "Activo", "Logrado", "En Pausa", "Descontinuado", each exactly for its status (active, achieved, paused, discontinued) |
| ProgramsDashboard.StatusBadgesDistinct | src/features/programs/ProgramsDashboard.tsx:65-83 | different statuses get different colours and labels |
| ProgramsDashboard.StatusClick | src/features/programs/ProgramsDashboard.tsx:85-90 | a program's own status does nothing; any other selects it and asks for confirmation |
| ProgramsDashboard.SetProgramStatus | src/features/programs/ProgramsDashboard.tsx:94-98 | only the programs with that id change, and only in status |
| ProgramsDashboard.ConfirmStatusChange | src/features/programs/ProgramsDashboard.tsx:92-109 | nothing without a selection and a target; otherwise the status changes and the selection clears |
| ProgramsDashboard.ClickThenConfirm | src/features/programs/ProgramsDashboard.tsx:85-109 | choosing a new status and confirming sets it on that program only |
| ProgramacionView.StatusText | src/components/ProgramacionView.tsx:13-23 | "Activo", "Logrado" and "Pausa", each exactly for its status |
| ProgramacionView.SelectTab | src/components/ProgramacionView.tsx:67 | a cleared tab falls back to "todos" |
| ProgramacionView.FilteredAsWritten | src/components/ProgramacionView.tsx:30-36 | "todos" keeps all; otherwise a program is kept iff its lower-cased status equals the lower-cased tab |
| ProgramacionView.PluralTabsMatchNothing | src/components/ProgramacionView.tsx:30-72 | as written, the "activos" and "logrados" tabs show nothing, while "pausa" shows every paused program |
| ProgramacionView.ActiveTabExample | src/components/ProgramacionView.tsx:13-72 | as written, the active tab is empty on the shipped skill list |
| ProgramacionView.TabStatus | src/components/ProgramacionView.tsx:69-72 | corrected: each tab names exactly one status |
| ProgramacionView.Filtered | src/components/ProgramacionView.tsx:30-36 | corrected: "todos" keeps all, another tab exactly the programs of its status, in order |
| ProgramacionView.EachTabShowsItsStatus | src/components/ProgramacionView.tsx:30-72 | corrected: every program appears under its own status's tab |
| ProgramacionView.BadgeColor | src/components/ProgramacionView.tsx:38-45 | blue, green or yellow by status; an active behaviour program is red |
| MockData.StaffRoleText | src/api/mockData.ts:8 | "admin", "supervisor" and "therapist", each exactly for its role |
| MockData.StudentStatusText | src/api/mockData.ts:129-149 | "active" exactly for an active student, "inactive" otherwise |
| StudentsList.Available | src/features/students/StudentsList.tsx:86 | a therapist sees a prefix of at most three students, anyone else all |
| StudentsList.EffectiveStatus | src/features/students/StudentsList.tsx:96 | a missing status counts as active |
| StudentsList.FilteredStudents | src/features/students/StudentsList.tsx:88-100 | an order-preserving selection of the available students; a student is shown iff available, matched by the search and by the tab |
| StudentsList.EmptySearchShowsAll | src/features/students/StudentsList.tsx:89-97 | an empty search on the "all" tab shows every available student |
| StudentsList.SearchIgnoresQueryCase | src/features/students/StudentsList.tsx:89-94 | the query's case does not change the result |
| StudentsList.NameFragmentMatches | src/features/students/StudentsList.tsx:89-94 | any part of a name finds that student |
| StudentsList.MissingStatusIsActive | src/features/students/StudentsList.tsx:96-97 | a student without status is listed under the active tab |
| StudentsList.Diagnoses | src/features/students/StudentsList.tsx:46 | exactly the students' diagnoses |
| StudentsList.ExistingDiagnoses | src/features/students/StudentsList.tsx:46 | duplicate-free, exactly the students' diagnoses, in the order they first appear |
| StudentsList.DiagnosisOptions | src/features/students/StudentsList.tsx:45-47 | duplicate-free, the defaults first, an option iff a default, "Otro" or an existing diagnosis, and in the order of first mention in defaults, existing diagnoses, "Otro" |
| StudentsList.ValidateCreate | src/features/students/StudentsList.tsx:59-64 | errors iff, in UTF-16 code units, name under 5, identity number under 8, diagnosis under 2, or "Otro" with a custom text under 2 |
| StudentsList.FinalDiagnosis | src/features/students/StudentsList.tsx:69 | the custom text for "Otro", the chosen diagnosis otherwise |
| StudentsList.SubmitCreate | src/features/students/StudentsList.tsx:67-79 | submitted iff valid, with the final diagnosis of at least 2 characters |
| StudentsPage.FindStudent | src/pages/StudentsPage.tsx:15 | the first student with the id; none iff there is none |
| StudentsPage.SelectedStudent | src/pages/StudentsPage.tsx:15 | none without a route id, otherwise the lookup |
| StudentsPage.AvatarUrl | src/pages/StudentsPage.tsx:45 | the avatar base followed by the name's characters without whitespace, all of them |
| StudentsPage.AvatarIgnoresSpacing | src/pages/StudentsPage.tsx:45 | names differing only in spacing get the same avatar |
| StudentsPage.Age | src/pages/StudentsPage.tsx:49 | the difference of the calendar years |
| StudentsPage.AgeCountsYearsNotBirthdays | src/pages/StudentsPage.tsx:49 | the stored age is the completed years, or one more before this year's birthday |
| StudentsPage.NewStudentId | src/pages/StudentsPage.tsx:44 | `std-new-` followed by a numeral that reads back as the instant |
| StudentsPage.NewStudent | src/pages/StudentsPage.tsx:43-58 | the entered data with an empty folder: no family, medication or documents, both flags off |
| StudentsPage.CreateStudent | src/pages/StudentsPage.tsx:42-60 | exactly one student appended; the others unchanged |
| StudentsPage.CreatedStudentIsReachable | src/pages/StudentsPage.tsx:15-60 | a created student with a new id is what its route opens, and it is listed as active |
| StudentsPage.Merge | src/pages/StudentsPage.tsx:24 | field by field, the edit's value where it carries one and the student's own value everywhere else; an empty edit changes nothing |
| StudentsPage.MergeIdempotent | src/pages/StudentsPage.tsx:24 | applying an edit twice is applying it once |
| StudentsPage.UpdateStudent | src/pages/StudentsPage.tsx:22-26 | only the students with the route id are merged; without an id nothing changes |
| StudentsPage.FindAfterUpdate | src/pages/StudentsPage.tsx:15-26 | after an edit keeping the id, the lookup finds the edited student |
| StudentsPage.UpdateThenSelect | src/pages/StudentsPage.tsx:15-26 | after an edit keeping the id, the route shows the edited student |
| TeamManagement.FilteredMembers | src/features/team/TeamManagement.tsx:33-38 | an order-preserving selection; a member is shown iff the search and the role filter admit them |
| TeamManagement.NoFilterShowsAll | src/features/team/TeamManagement.tsx:33-38 | an empty search and no role list the whole team |
| TeamManagement.RoleFilterSelectsRole | src/features/team/TeamManagement.tsx:36 | a chosen role keeps exactly that role's members the search admits |
| TeamManagement.NameFragmentMatches | src/features/team/TeamManagement.tsx:34-35 | any part of a name, in any case, finds that member |
| TeamManagement.RoleBadgeColor | src/features/team/TeamManagement.tsx:52-61 | blue iff supervisor, green iff therapist, gray otherwise |
| TeamManagement.RoleLabel | src/features/team/TeamManagement.tsx:63-72 | Spanish names for the two known roles, the raw role otherwise |
| TeamManagement.RoleLabelsDistinct | src/features/team/TeamManagement.tsx:63-72 | every staff role gets its own label |
| TeamManagement.SaveTarget | src/features/team/TeamManagement.tsx:45-50 | an edit is sent iff a member is selected, under that member's id |
| SessionPage.SessionPrograms | src/pages/SessionPage.tsx:52-55 | exactly the student's active programs, in order |
| SessionPage.TogglePause | src/pages/SessionPage.tsx:86-87 | the status flips; nothing else changes |
| SessionPage.TogglePauseTwice | src/pages/SessionPage.tsx:86-87 | pausing and resuming restores the state |
| SessionPage.StatusBadge | src/pages/SessionPage.tsx:122-126 | green "En Curso" while running, yellow "Pausada" while paused |
| SessionPage.StartProgram | src/pages/SessionPage.tsx:70-73 | the collector opens on the program; completions and status are kept |
| SessionPage.CloseCollector | src/pages/SessionPage.tsx:96-105 | the program is added to the completed list only if absent; the collector closes |
| SessionPage.InitialValid | src/pages/SessionPage.tsx:52-105 | the fresh page satisfies the invariant |
| SessionPage.HandlersKeepValid | src/pages/SessionPage.tsx:70-105 | starting a listed program, closing and pausing keep the completed ids distinct and drawn from the session |
| SessionPage.CompletedBounded | src/pages/SessionPage.tsx:96-105 | no more programs are done than the session has |
| SessionPage.ProgressAsWritten | src/pages/SessionPage.tsx:68 | NaN exactly for 0/0; otherwise the rounded 100·completed/total |
| SessionPage.NoActiveProgramsShowsNaN | src/pages/SessionPage.tsx:68 | as written, a student with no active programs sees NaN% |
| SessionPage.Progress | src/pages/SessionPage.tsx:164 | corrected: in [0,100], 0 for an empty session, the rounded share otherwise, 100 when all are done |
| ProfileSettings.InitialValues | src/features/team/ProfileSettings.tsx:19-27 | the profile's fields, a missing phone as empty |
| ProfileSettings.HasInnerAt | src/features/team/ProfileSettings.tsx:30 | an `@` strictly inside the string |
| ProfileSettings.CheckEmailMatchesShape | src/features/team/ProfileSettings.tsx:30 | the scan accepts exactly `^\S+@\S+$` |
| ProfileSettings.ShapeExamples | src/features/team/ProfileSettings.tsx:30 | `a@b` passes; `@b`, `a@` and `a @b` do not |
| ProfileSettings.Validate | src/features/team/ProfileSettings.tsx:29-31 | errors iff name `length` under 3, e-mail off the shape, profession `length` under 2, lengths in UTF-16 code units |
| ProfileSettings.Submit | src/features/team/ProfileSettings.tsx:51-57 | saved iff valid, with every field |
| ProfileSettings.Initial | src/features/team/ProfileSettings.tsx:15 | the preview starts as the profile's avatar, in step with the form |
| ProfileSettings.SelectAvatar | src/features/team/ProfileSettings.tsx:35-39 | preview and form field take the same URL; nothing else changes |
| ProfileSettings.UploadAvatar | src/features/team/ProfileSettings.tsx:41-49 | a cancelled dialog changes nothing; a file is picked like an avatar |
| ProgramChartPage.MetricOf | src/pages/ProgramChartPage.tsx:56 | percentage iff a skill program, frequency iff a behaviour program |
| ProgramChartPage.MetricLabel | src/pages/ProgramChartPage.tsx:91-92 | the axis label follows the metric |
| ProgramChartPage.RangeDays | src/pages/ProgramChartPage.tsx:64-66 | 7 for "7d", 90 for "90d", 30 for anything else |
| ProgramChartPage.Cutoff | src/pages/ProgramChartPage.tsx:68-69 | exactly the range's days before now |
| ProgramChartPage.TherapistTarget | src/pages/ProgramChartPage.tsx:75-77 | none for no choice or "Todos"; th-1 for "Juan Pérez"; th-2 for any other name |
| ProgramChartPage.FilteredData | src/pages/ProgramChartPage.tsx:62-82 | an order-preserving selection: a point is kept iff dated at or after the cutoff and of the chosen therapist, if any |
| ProgramChartPage.RangesNest | src/pages/ProgramChartPage.tsx:64-72 | a longer range never hides a point a shorter one shows |
| ProgramChartPage.AllTherapistsIsNoFilter | src/pages/ProgramChartPage.tsx:75-79 | "Todos" is the same as no choice |
| ProgramChartPage.Values | src/pages/ProgramChartPage.tsx:85 | the points' values, in order |
| ProgramChartPage.PageKPIs | src/pages/ProgramChartPage.tsx:85 | the indicators count exactly the filtered points |
| ProgramChartPage.OpenGoal | src/pages/ProgramChartPage.tsx:95-98 | the draft restarts from the goal; the dialog opens |
| ProgramChartPage.EditDraft | src/pages/ProgramChartPage.tsx:261 | only the draft changes |
| ProgramChartPage.SaveGoal | src/pages/ProgramChartPage.tsx:100-109 | the draft becomes the goal; the dialog closes |
| ProgramChartPage.CancelGoal | src/pages/ProgramChartPage.tsx:251 | the goal stays; the dialog closes |
| ProgramChartPage.GoalChangesOnlyOnSave | src/pages/ProgramChartPage.tsx:95-109 | whatever is typed, cancelling keeps the goal and saving stores the last value typed |
| ProgramChartPage.LatestRows | src/pages/ProgramChartPage.tsx:215 | the last ten points, or all when fewer, newest first |

## Left out

- Rendering, routing, modals, tabs, notifications and the theme: they carry no statable behaviour beyond the state each handler sets.
- Timers: `setInterval`/`setTimeout` scheduling is modelled as one `Tick` per firing; the two-second bell polling and the minute refresh of the session card are not modelled.
- Browser I/O: `localStorage`, `window.confirm`, `alert`, `URL.createObjectURL` (an uploaded file arrives as its URL) and PDF export.
- Clock values: `Date.now()`, `new Date()`, today's ISO day and the current year are parameters. The ISO rendering of a picked date (`toISOString().split('T')[0]`) is a parameter too.
- Randomness: the day offsets of the mock invitations are a parameter. `generateMockData` in the analytics data and the random chart series are not modelled.
- The regex engine: both e-mail patterns are restated as string predicates, with a scanner proved equal to each.
- Fixtures: the seed lists of students, staff, programs and sessions are not modelled. Exceptions are the lists the logic indexes into: the generator's professionals, students and messages, the base bar series, the navigation items and the two program lists of the planning view.
- `Object.entries`/object-key order: the student grouping is a sequence of groups in order of first appearance. That is the iteration order JavaScript gives string keys that are not array indices.
- Aliasing: the source mutates the shared invitation array in place when a professional answers (`inv.status = ...`). The model passes that array between pages as a value.
- TeamPage's merge of an edited profile and the dashboard's `useEffect` that re-syncs the program list from its props are not part of this model.
- The not-found views of the session page and the chart page, and the chart page's lookup of the student and program by route, are not part of this model.
- Analytics.CalculateKPIs: values are exact reals, so IEEE-754 rounding of sums and quotients is not modelled.
- FrequencyRecorder.Rate: the same applies to the rate, which is an exact rational rounded to a tenth.
- RegistroPorcentaje.Percentage: the same applies to the unrounded percentage.
- IntervalRecorder.Percentage: rounds the exact ratio, `RoundDiv(100·occurred, recorded)`, where the source rounds the double `(occurred / recorded) * 100`. The first disagreement is 23 of 40, where the double is 57.49999999999999, so JavaScript shows 57 and the model 58. The configuration field allows at most 30 intervals, so the case lies outside the form's bounds.
- PercentageRecorder.CalculateStats: the same exact rounding of independent / trials·100. It first differs from JavaScript at 23 of 40, and the trial-count field allows at most 10 trials.
- SessionPage.ProgressAsWritten: the same exact rounding of completed / total·100. It first differs from JavaScript at 23 of 40, which needs a student with at least 40 active programs.
- SessionPage.Progress: the corrected progress rounds the exact ratio in the same way, with the same first disagreement at 23 of 40.
- ActiveSessionCard.CalculateProgress: takes the elapsed milliseconds, not the local-time `new Date(year, month - 1, ...)` parse of the session start, so time zones and daylight saving are not modelled.
- ProgramChartPage.Cutoff: subtracts whole days of 86,400,000 ms from an instant; `setDate` on local time across a daylight-saving change is not modelled.
- StudentsList.MatchesSearch: `toLowerCase` is modelled on ASCII and Latin-1 letters only.
- StudentsPage.UpdateStudent: `StudentDetail` (src/features/students/StudentDetail.tsx:60) takes only `student` and never calls its `onUpdate` prop, and its one form only calls `preventDefault` on submit (src/features/students/StudentDetail.tsx:803). So `handleUpdateStudent` is unreachable in the application. Merge, MergeIdempotent, UpdateStudent, FindAfterUpdate and UpdateThenSelect model the handler from its text, as if a screen called it.
- StudentsPage.Merge: an optional field of the edit can set a value but not clear one, so an edit that sends `undefined` to erase a field is not modelled.
- StudentsList.SubmitCreate: a missing `onCreateStudent` callback (the optional call) is not modelled; the payload is what would be sent.
- InvitationsPage: the page imports `mockInvitations` and the type `AccessInvitation` from src/api/invitationsData.ts, which exports neither, and src/App.tsx:27-36 routes no path to it. The model's `AccessInvitation` datatype and request list are built from the fields the page itself uses, and its handlers are modelled as if the page were live.
- IntervalRecorder.Configure: the interval count and duration are whole, non-negative numbers; the decimal or negative entries Mantine's NumberInput allows and `Number(value) || default` keeps are not modelled.
- PercentageRecorder.Configure: the trial count is a whole, non-negative number; a decimal entry, which `Array.from({ length })` truncates, is not modelled.
- ProgramChartPage.SaveGoal: the goal is an integer; a decimal goal entered in the NumberInput is not modelled.
- TeamManagement.FilteredMembers: `toLowerCase` is modelled on ASCII and Latin-1 letters only, as for StudentsList.MatchesSearch.
- ShareStudentModal.FindExisting: the same restriction of `toLowerCase` applies to the e-mail comparison.
- StudentDetail.SavedSkillReopens: states the corrected designer, re-initialised from the program at every opening. For the as-written designer only the first edit after mount is modelled (the blank form); the state a designer keeps from one opening to the next after earlier edits is not.
- StudentDetail.MergeSkill: requires the selected program to be a skill program (and MergeBehavior a behaviour plan). This holds whenever the matching designer was opened on it. Spreading the other variant's fields into a program is not modelled.
- IntervalRecorder.NumberInput: `Number(value)` on non-numeric text (NaN) is treated as an empty entry.
- PercentageRecorder.TrialCountInput: a negative entry is kept, as in the source; `Array.from({ length })` on it is not modelled.

## Findings

| source | as written | input that shows it | evidently intended | confidence | as-written member | corrected member |
|---|---|---|---|---|---|---|
| src/components/ProgramacionView.tsx:30-36 | the tabs are "activos", "logrados", "pausa" and are compared with the lower-cased statuses "activo", "logrado", "pausa" | any list on the "activos" tab: nothing is shown though programs are active | each tab shows the programs of its status | high (not executed) | ProgramacionView.PluralTabsMatchNothing | ProgramacionView.EachTabShowsItsStatus |
| src/pages/SharedAccessPage.tsx:76-77 | cancelling removes the invitation from the page's state only; the registry the share form checks keeps it | share with p@x.com, cancel it, share again: "Ya existe una invitación pendiente" | the cancelled invitation no longer blocks a new one | medium (not executed) | SharedAccessPage.CancelAsWrittenLeavesStaleInvitation | SharedAccessPage.CancelFreesInvitee |
| src/pages/SharedAccessPage.tsx:142-145 | revoking removes the access from the page only | revoke an accepted access, share again: "Este profesional ya tiene acceso" | a revoked professional can be invited again | medium (not executed) | SharedAccessPage.RevokeAsWrittenLeavesStaleAccess | SharedAccessPage.RevokeFreesInvitee |
| src/pages/SharedAccessPage.tsx:86-95 | the resent copy is added to the page only, never to the registry the professional's bell reads | resend a rejected invitation to the current professional: the bell never shows it | the resent invitation reaches the professional | medium (not executed) | SharedAccessPage.ResendAsWrittenNeverReachesBell | SharedAccessPage.ResendReachesBell |
| src/pages/SharedAccessPage.tsx:116-125 | saving a new access level updates the page's state only, not the registry the bell reads | change a pending invitation to the current professional from full to read-only: the bell's badge still says full | the professional sees the level the supervisor set | medium (not executed) | SharedAccessPage.SaveLevelAsWrittenLeavesBellStale | SharedAccessPage.SaveLevelReachesBell |
| src/features/students/StudentDetail.tsx:770-783 | both designers are mounted once with no selection, and their `useState`/`useForm` initial values (src/features/programs/SkillProgramDesigner.tsx:28-40) are read only then, so "Editar" shows the blank form | edit a skill program with steps, type a name and an objective, save: the program has no steps | the designer opens on the program being edited | medium (not executed) | StudentDetail.EditSkillAsWrittenErasesSteps | StudentDetail.EditSkillUnchangedKeepsProgram |
| src/pages/SessionPage.tsx:68 | `completed / total * 100` with no guard for 0 | a student with no active programs: 0 / 0 is NaN, shown as "NaN%" | 0% when there is nothing to do | high (not executed) | SessionPage.NoActiveProgramsShowsNaN | SessionPage.Progress |
