# Groopin landing page — a Dafny model of its interactive core

Groopin's pre-launch landing page collects waitlist signups with referral
codes. It shows a referral leaderboard, a feed of recent signups and a live
counter. It runs a city-voting poll, a three-question personality quiz and a
scripted chat assistant. It also has a share panel, a launch countdown, a
testimonial carousel, an FAQ accordion and a once-only exit prompt.

This project models the logic of those components in Dafny.

- The signup table (`waitlist_signups`) is a sequence of rows.
- Store and network outcomes are parameters: a query that fails, an RPC that answers or not.
- Timers and realtime events are explicit method calls.

Each component with local state becomes a class whose methods are its event
handlers. Pure computations are functions, and lemmas state what they
guarantee.

Modules:

| module | file | component |
|---|---|---|
| `Wrappers`, `Text`, `Sorting` | wrappers.dfy, text.dfy, sorting.dfy | shared: `Option`; JavaScript white space, `trim`, ASCII case mapping, `includes`, `substring`; the stable sort that `Array.prototype.sort` performs with a `b - a` comparator |
| `Store` | store.dfy | rows of `waitlist_signups` and the queries the page issues |
| `Waitlist` | waitlist.dfy | the signup form |
| `Leaderboard`, `RecentSignups`, `LiveCounter`, `CityVoting` | leaderboard.dfy, recent_signups.dfy, live_counter.dfy, city_voting.dfy | the store-backed widgets |
| `Quiz`, `AIAgent`, `SocialShare` (with `Uri`) | quiz.dfy, ai_agent.dfy, social_share.dfy, uri.dfy | quiz, chat, share panel |
| `Countdown`, `Testimonials`, `Faq`, `ExitIntent` | countdown.dfy, testimonials.dfy, faq.dfy, exit_intent.dfy | the small UI state machines |

## Model

| member | source | states |
|---|---|---|
| Text.TrimEmptyIffBlank | src/components/AIAgent.tsx:65 | `trim()` yields the empty string exactly when the input is all JavaScript white space |
| Text.ContainsIff | src/components/AIAgent.tsx:55-56 | `includes` holds exactly when the key occurs at some position of the message |
| Text.LowerIdempotent | src/components/AIAgent.tsx:53 | lower-casing twice is lower-casing once |
| Text.NatToString | src/components/CountdownTimer.tsx:77 | `toString()` of a number is a non-empty run of digits, one digit exactly for values below 10 |
| Text.NatToStringValue | src/components/CountdownTimer.tsx:77 | the digits `toString()` writes denote the number itself, and only 0 begins with a zero |
| Text.LeadingZeroValue | src/components/CountdownTimer.tsx:77 | a leading zero does not change the number a digit string denotes |
| Sorting.SortDesc | src/components/CityVoting.tsx:107 | the sort returns a permutation of its input |
| Sorting.SortDescSorted | src/components/CityVoting.tsx:107 | the result is ordered by key, largest first |
| Sorting.SortDescHead | src/components/Quiz.tsx:98 | the stable sort puts first the earliest element with the largest key |
| Sorting.FirstMax | src/components/Quiz.tsx:98 | the index of the first element whose key is the maximum |
| Sorting.TopKSpec | src/components/Leaderboard.tsx:46-47 | `order … limit k` gives a sub-multiset sorted by non-increasing key (of size min(n, k) by `TopK`'s own contract), and no row left out ranks above a row kept |
| Store.HasEmail | src/components/Waitlist.tsx:82-84 | the unique-email constraint fires exactly when some row has the e-mail |
| Store.IdsWithCodeCount | src/components/Waitlist.tsx:57-61 | the select on `referral_code` returns one id per row holding the code |
| Store.LookupByCode | src/components/Waitlist.tsx:57-65 | `maybeSingle` on `referral_code` yields an id exactly when one row holds the code, and then it is that row's id; no match or several matches yield nothing |
| Store.FindById | src/components/Waitlist.tsx:93-97 | the row with the id, or none when no row has it |
| Store.SetReferralCount | src/components/Waitlist.tsx:100-103 | the update changes `referral_count` of the rows with the id and nothing else |
| Store.CountCreatedUpToAll | src/components/Waitlist.tsx:107-110 | when every row was created no later than `at`, the `lte('created_at', at)` count is the table size |
| Store.CountIgnoresReferralCount | src/components/Waitlist.tsx:100-110 | bumping a referral count does not change the position count |
| Waitlist.EmailRegexIff | src/components/Waitlist.tsx:46 | the direct e-mail test accepts exactly the language of `^[^\s@]+@[^\s@]+\.[^\s@]+$` |
| Waitlist.FallbackCode | src/components/Waitlist.tsx:29 | `substring(2, 10).toUpperCase()` gives at most 8 characters, exactly 8 from a long enough base-36 string, and upper-case alphanumerics when the digits after the leading `0.` are alphanumeric |
| Waitlist.ChooseReferralCode | src/components/Waitlist.tsx:26-33 | the RPC's code when it answers with a non-empty one, the fallback otherwise |
| Waitlist.RefFromSearch | src/components/Waitlist.tsx:18-24 | the pending referral is the `ref` parameter when it is non-empty, and nothing otherwise |
| Waitlist.ResolveReferrer | src/components/Waitlist.tsx:55-66 | a referrer is resolved exactly when there is a pending code, the lookup answers and exactly one row holds the code, and it is that row's id; no code, a failed lookup, no match or several matches leave no referrer |
| Waitlist.LookUpReferrer | src/components/Waitlist.tsx:55-66 | the `maybeSingle` lookup by code yields exactly the referrer that `ResolveReferrer` specifies |
| Waitlist.NoSelfReferral | src/components/Waitlist.tsx:55-80 | the referrer is never the row being inserted |
| Waitlist.ReferralIncrementsReferrerOnly | src/components/Waitlist.tsx:92-105 | the read-then-update raises the referrer's `referral_count` by one and leaves every other row as it was |
| Waitlist.IncrementReferrer | src/components/Waitlist.tsx:92-105 | the re-read and update of the referrer produce exactly the table `ApplyReferral` specifies, a failed re-read or update leaving it as it was |
| Waitlist.PositionShown | src/components/Waitlist.tsx:113 | `count \|\| 1` is at least 1 and is the count when that is positive |
| Waitlist.StageMessage | src/components/Waitlist.tsx:40-50 | an error message is shown exactly when the submission did not join |
| Waitlist.SignupKeepsCountsMatching | src/components/Waitlist.tsx:68-105 | a fault-free signup keeps every row's `referral_count` equal to the number of rows it referred |
| Waitlist.BumpCompletesCounts | src/components/Waitlist.tsx:92-105 | when only the referrer's count lags one behind its referrals, the fault-free update makes every count match |
| Waitlist.PositionOfNewest | src/components/Waitlist.tsx:107-113 | the N-th signup is shown position N |
| Waitlist.InsertKeepsWellFormed | src/components/Waitlist.tsx:68-80 | inserting a fresh e-mail keeps e-mails and ids unique and referrers older than their referrals |
| Waitlist.ApplyReferralKeepsWellFormed | src/components/Waitlist.tsx:92-105 | the referral update keeps the table well formed |
| Waitlist.SignupKeepsWellFormed | src/components/Waitlist.tsx:68-105 | an insert of a fresh e-mail followed by the referral update, faults or not, keeps the table well formed with the next id advanced |
| Waitlist.SignupForm.constructor | src/components/Waitlist.tsx:18-24 | the form starts empty and remembers the `ref` parameter |
| Waitlist.SignupForm.Submit | src/components/Waitlist.tsx:35-128 | an empty or malformed e-mail, a duplicate and a failed insert each set their message and change no row; a valid new e-mail inserts one row, applies the referral and shows the position |
| Waitlist.SignupForm.Join | src/components/Waitlist.tsx:68-114 | the insert, the referral update and the position, with the table kept well formed |
| Waitlist.SignupForm.StoreSignup | src/components/Waitlist.tsx:68-105 | the stored rows become the old rows plus the new one with the referral applied, the next id advances and the table stays well formed |
| Waitlist.SignupForm.Reject | src/components/Waitlist.tsx:82-90 | a rejection shows its message and ends loading, touching nothing else |
| Waitlist.SignupForm.ClearFields | src/components/Waitlist.tsx:117-121 | the delayed reset clears e-mail, name and city only |
| Leaderboard.Referrers | src/components/Leaderboard.tsx:45 | `gt('referral_count', 0)` keeps exactly the rows with a positive count |
| Leaderboard.TopReferrersSpec | src/components/Leaderboard.tsx:42-47 | at most 10 rows, all with referrals, sorted by count, and none left out outranks one shown |
| Leaderboard.EmptyIffNoReferrers | src/components/Leaderboard.tsx:84-86 | the board is empty exactly when nobody has referred anyone |
| Leaderboard.RankStyles | src/components/Leaderboard.tsx:58-82 | the first three places get three distinct icons and badges, the rest the default |
| Leaderboard.LeaderboardView.FetchLeaders | src/components/Leaderboard.tsx:40-56 | a successful fetch shows the top referrers, a failure keeps the list; loading ends either way |
| RecentSignups.NewestSpec | src/components/RecentSignups.tsx:41-45 | at most five rows, newest first, and none left out is newer than one shown |
| RecentSignups.PushRecent | src/components/RecentSignups.tsx:29 | an inserted signup goes first, followed by the previous list cut to four |
| RecentSignups.PushRecentKeepsOrder | src/components/RecentSignups.tsx:27-30 | a newer insert keeps the feed ordered newest first |
| RecentSignups.AgeOf | src/components/RecentSignups.tsx:54-61 | the age bucket follows the 60 s, 3600 s and 86400 s thresholds |
| RecentSignups.Initial | src/components/RecentSignups.tsx:84 | the avatar letter is the upper-cased first letter of the name, or '?' |
| RecentSignups.DisplayName | src/components/RecentSignups.tsx:89 | the name, or "Anonymous" when there is none |
| RecentSignups.RecentSignupsView.OnInsert | src/components/RecentSignups.tsx:27-30 | the realtime insert handler pushes the row |
| RecentSignups.RecentSignupsView.FetchRecentSignups | src/components/RecentSignups.tsx:39-52 | a successful fetch shows the five newest rows, a failure keeps the list |
| LiveCounter.GrowthBadge | src/components/LiveCounter.tsx:46-51 | a badge appears exactly when the count the handler saw is positive and the total exceeds it, and it shows the difference |
| LiveCounter.MountClosureNeverShowsGrowth | src/components/LiveCounter.tsx:10-36 | handlers holding the first render's count of 0 never show a badge |
| LiveCounter.GrowthLostAfterFirstLoad | src/components/LiveCounter.tsx:22-30 | after a first load of 5, an insert that brings the total to 7 shows no badge; the live count would have shown +2 |
| LiveCounter.Counter.FetchCountWith | src/components/LiveCounter.tsx:38-59 | an error keeps the count; a total replaces it and sets the badge as `GrowthBadge` says; loading ends |
| LiveCounter.Counter.OnInsertEvent | src/components/LiveCounter.tsx:22-24 | the INSERT handler updates the count and never changes the badge |
| LiveCounter.Counter.OnPoll | src/components/LiveCounter.tsx:28-30 | the 30-second poll updates the count and never changes the badge |
| LiveCounter.Counter.OnMount | src/components/LiveCounter.tsx:11 | the first fetch updates the count and never changes the badge |
| LiveCounter.Counter.FetchCountCurrent | src/components/LiveCounter.tsx:46-52 | reading the live count, growth over a positive count shows the badge |
| LiveCounter.Counter.ClearGrowth | src/components/LiveCounter.tsx:50 | the 3-second timer resets the badge |
| CityVoting.FlagIn | src/components/CityVoting.tsx:116-119 | the flag of the first initial city with that name, the globe when there is none |
| CityVoting.HasCityNameAppend | src/components/CityVoting.tsx:51-65 | after an upsert, the table holds a name exactly when it held it before or the upsert added it |
| CityVoting.HasCityNameIff | src/components/CityVoting.tsx:61-62 | the table holds a name exactly when some city in it has that name, the key `onConflict` tests |
| CityVoting.FindCity | src/components/CityVoting.tsx:94-95 | `find` by id returns a city with that id, or none when no city has it |
| CityVoting.Bump | src/components/CityVoting.tsx:106 | the voted city's count rises by one, the others stay |
| CityVoting.VoteEffect | src/components/CityVoting.tsx:104-108 | after a vote the list is sorted by votes and is the old list with exactly that city's count raised by one |
| CityVoting.CityVotingView.LoadVotedCities | src/components/CityVoting.tsx:35-40 | stored votes, when present, become the voted set |
| CityVoting.CityVotingView.SaveVotedCity | src/components/CityVoting.tsx:42-47 | the name joins the voted set and the set is stored |
| CityVoting.CityVotingView.FetchCities | src/components/CityVoting.tsx:74-88 | a successful fetch shows the table sorted by votes |
| CityVoting.CityVotingView.InitializeCities | src/components/CityVoting.tsx:49-72 | each successful upsert leaves its city in the table, existing rows untouched, with names unique |
| CityVoting.CityVotingView.UpsertAll | src/components/CityVoting.tsx:51-65 | the loop keeps existing rows, adds only cities seeded from the defaults with no votes, and leaves every successfully upserted name in the table |
| CityVoting.CityVotingView.UpsertCity | src/components/CityVoting.tsx:52-64 | an upsert that ignores duplicates appends the city with no votes exactly when its name is new and the call succeeds, and otherwise changes nothing |
| CityVoting.CityVotingView.HandleVote | src/components/CityVoting.tsx:90-114 | a repeat vote, an unknown city or a failed update changes nothing; otherwise the city gains one vote, the list is re-sorted and the name is remembered |
| Quiz.TallyIsTallyOf | src/components/Quiz.tsx:93-96 | the reduce gives one key per answered category, with its number of answers, keys in first-answered order |
| Quiz.TopCategorySpec | src/components/Quiz.tsx:92-100 | the result is a most-answered category and, among those tied, the one answered first |
| Quiz.MaxEntryIsMostAnswered | src/components/Quiz.tsx:93-98 | a tally entry with the largest count names an answered category that no other category out-counts |
| Quiz.FirstMaxEntryIsFirstAnswered | src/components/Quiz.tsx:93-98 | the first entry with the largest count names, among the categories tied with it, the one answered first |
| Quiz.AddAnswerSpec | src/components/Quiz.tsx:94 | an answer bumps its key in place, or appends a new key with count 1 |
| Quiz.QuizState.HandleAnswer | src/components/Quiz.tsx:75-84 | one answer appended; the question index advances until the last question, where the result is shown exactly when three answers are in |
| Quiz.QuizState.ResetQuiz | src/components/Quiz.tsx:86-90 | back to question 0, no answers, no result |
| AIAgent.FirstMatch | src/components/AIAgent.tsx:55-59 | the first rule whose key occurs in the message, with no earlier key occurring; none when no key occurs |
| AIAgent.ChooseReply | src/components/AIAgent.tsx:53-61 | the loop stops at the first key found in the lower-cased message and otherwise falls back to the default, which is `BotReply` |
| AIAgent.GetBotResponse | src/components/AIAgent.tsx:52-62 | the response is the text of the reply that `BotReply` specifies |
| AIAgent.ReplyFromTable | src/components/AIAgent.tsx:16-29 | every reply is one of the table's replies |
| AIAgent.ReplyIgnoresCase | src/components/AIAgent.tsx:53 | replies do not depend on the case of ASCII letters |
| AIAgent.DefaultReplyCases | src/components/AIAgent.tsx:55-61 | no key gives the default reply, and so does the `default` key itself |
| AIAgent.HiWinsOverLaterKeys | src/components/AIAgent.tsx:19-57 | `hi` in a message without `default` or `hello` selects the `hi` reply, whatever later keys occur |
| AIAgent.HelloBeforeHelp | src/components/AIAgent.tsx:18-20 | "hello help" gets the hello reply |
| AIAgent.WhichMatchesHi | src/components/AIAgent.tsx:19-57 | "which" gets the hi reply |
| AIAgent.InnerWordMatch | src/components/AIAgent.tsx:19-57 | "What is this?" gets the hi reply, not the `what` one |
| AIAgent.Chat.constructor | src/components/AIAgent.tsx:32-41 | the chat opens with the greeting only |
| AIAgent.Chat.HandleSend | src/components/AIAgent.tsx:64-76 | blank input changes nothing; otherwise one user message with the text is appended, the input cleared, typing shown and a reply scheduled |
| AIAgent.Chat.ReplyArrives | src/components/AIAgent.tsx:78-88 | a reply timer appends one bot message answering the text it captured and hides typing; every user message stays answered or pending |
| AIAgent.Chat.PostReply | src/components/AIAgent.tsx:78-88 | posting a reply appends one bot message with that text, drops the answered pending text, hides typing and keeps the chat valid |
| Uri.EncodeURIComponent | src/components/SocialShare.tsx:27-28 | only unreserved characters and `%` appear in the output; unreserved text is unchanged |
| Uri.EncodedHasNoDelimiters | src/components/SocialShare.tsx:30-40 | encoded text holds no `&`, `=`, `?`, `#` or space |
| Uri.DecodeEncode | src/components/SocialShare.tsx:27-28 | `decodeURIComponent` gives back exactly the text that was encoded |
| SocialShare.ShareTextNamesCode | src/components/SocialShare.tsx:15-17 | the share text contains the code when there is one, and is the generic text otherwise |
| SocialShare.ShareUrlCarriesCode | src/components/SocialShare.tsx:11-13 | with an alphanumeric code, the signup form opened from the link reads that code from `ref` |
| SocialShare.PlainShareUrlCarriesNothing | src/components/SocialShare.tsx:11-13 | without a code the link is the bare origin, with no query |
| SocialShare.TwitterTargetCarries | src/components/SocialShare.tsx:31-33 | the tweet dialog's `text` and `url` parameters are the encoded share text and link |
| SocialShare.OtherTargetsCarry | src/components/SocialShare.tsx:34-39 | the Facebook `u` and LinkedIn `url` parameters are the encoded share link |
| SocialShare.ButtonsOpenDialogs | src/components/SocialShare.tsx:30-44 | each of the three buttons opens its platform's dialog |
| SocialShare.ButtonNames | src/components/SocialShare.tsx:30-39 | the `switch` recognises the names `twitter`, `facebook` and `linkedin` as their platforms |
| SocialShare.UnknownPlatformOpensNothing | src/components/SocialShare.tsx:26-44 | any other platform name opens nothing |
| SocialShare.SharedLinkSurvivesEncoding | src/components/SocialShare.tsx:27-28 | what the dialogs decode is exactly the share link and text |
| Countdown.CalculateTimeLeft | src/components/CountdownTimer.tsx:21-33 | for a positive difference, hours < 24, minutes and seconds < 60, and the units add up to the difference truncated to the second; otherwise the state is kept |
| Countdown.PadTwo | src/components/CountdownTimer.tsx:77 | `padStart(2, '0')` keeps every digit and adds leading zeros up to two characters |
| Countdown.PadTwoValue | src/components/CountdownTimer.tsx:77 | the padded field is all digits and denotes the unit's value |
| Testimonials.Next | src/components/Testimonials.tsx:43-56 | the next slide, wrapping from the last to the first |
| Testimonials.Previous | src/components/Testimonials.tsx:51 | the previous slide, wrapping from the first to the last |
| Testimonials.NextCycles | src/components/Testimonials.tsx:39-47 | four autoplay steps bring the carousel back to the same slide |
| Testimonials.Carousel.constructor | src/components/Testimonials.tsx:36-37 | first slide, autoplay on |
| Testimonials.Carousel.AutoStep | src/components/Testimonials.tsx:39-47 | the interval advances the slide only while autoplay is on |
| Testimonials.Carousel.GoToPrevious | src/components/Testimonials.tsx:49-52 | autoplay off, previous slide |
| Testimonials.Carousel.GoToNext | src/components/Testimonials.tsx:54-57 | autoplay off, next slide |
| Testimonials.Carousel.GoTo | src/components/Testimonials.tsx:118-121 | a dot click turns autoplay off and selects that slide |
| Faq.Toggle | src/components/FAQ.tsx:42-44 | toggling the open item closes everything; toggling another opens it alone |
| Faq.AtMostOneOpen | src/components/FAQ.tsx:72-82 | no two items are shown open together; this holds by construction, since the state is a single optional index |
| Faq.ToggleTwiceCloses | src/components/FAQ.tsx:43 | from all closed, two toggles of the same item close it again |
| Faq.Accordion.constructor | src/components/FAQ.tsx:40 | no item open at first |
| Faq.Accordion.ToggleQuestion | src/components/FAQ.tsx:42-44 | a click toggles that question |
| ExitIntent.Prompt.constructor | src/components/ExitIntent.tsx:11-27 | the mouse-leave listener is attached exactly when the seen flag is not set |
| ExitIntent.Prompt.MouseLeave | src/components/ExitIntent.tsx:15-20 | leaving through the top edge while listening shows the prompt and stores the flag `'true'`; anything else changes nothing |
| ExitIntent.Prompt.HandleClose | src/components/ExitIntent.tsx:29-32 | hides the prompt and calls `onClose` once; the page then unmounts it, see src/App.tsx line 70 |
| ExitIntent.Prompt.HandleJoinWaitlist | src/components/ExitIntent.tsx:34-37 | the same effect on the prompt as closing it |
| ExitIntent.ShownOnce | src/components/ExitIntent.tsx:12-18 | a top-edge leave on a listening prompt shows it and stores the flag, and a later mount over that storage attaches no listener and shows nothing |

## Left out

- Supabase itself is not modelled: the network, the realtime channels and `removeChannel`. Each query's outcome is a parameter of the method that issues it: success with the table's answer, or failure. A thrown error and a returned `error` are treated alike where the code treats them alike.
- Concurrency is not modelled. Interleaved `await`s and two submissions at once are not represented. Each handler runs to completion against the table passed in, so the read-then-update of `referral_count` is not shown racing with another one.
- Timers are explicit steps: the chat reply delay, the badge reset, the countdown tick, the carousel interval and the 100 ms form reset. Their delays are not modelled.
- `Math.random` (the fallback referral code and the chat delay) and the wall clock (`created_at`, `Date.now()`, the countdown's `now`) are parameters.
- Row ids are natural numbers standing for the store's opaque ids. They are always truthy, so the `if (referrerId)` test is modelled as "a referrer was found".
- The uniqueness of `referral_code` is a store constraint and is not modelled. `maybeSingle` is modelled as failing unless exactly one row matches.
- Postgres does not specify an order among rows with equal sort keys. The model uses a stable insertion sort, which is one admissible order.
- `URLSearchParams` is simplified: no percent-decoding of names or values, and no `+` as space. `window.location` is reduced to the origin and the query string.
- Case mapping covers ASCII letters only: `toLowerCase`/`toUpperCase` of other scripts is not modelled.
- Lone UTF-16 surrogates cannot occur in a Dafny string, so `encodeURIComponent`'s `URIError` is not modelled.
- JSON parsing of the stored voted-city list is not modelled: the stored value is an optional set of names. `localStorage` is a map from keys to strings.
- Rendering, styling, icons, confetti, scrolling, the clipboard copy and its `copied` flag, message ids and timestamps are not modelled.
- The contact form and the static sections are not modelled.
- E-mail addresses are neither trimmed nor lower-cased before validation or insert, because the code does neither. Addresses that differ only in case are therefore distinct rows.
- Countdown.CalculateTimeLeft: the launch date and the clock are folded into the parameter `difference`, counted in whole milliseconds.
- AIAgent.Chat.HandleSend: the reply timer captures the text at send time, as the closure does. Which pending timer fires next is a parameter of `ReplyArrives`.

## Findings

| source | as written | input that shows it | evidently intended | confidence | as-written member | corrected member |
|---|---|---|---|---|---|---|
| src/components/LiveCounter.tsx:10-48 | the mount effect, the INSERT handler and the 30-second poll call the `fetchCount` of the first render, whose `count` is 0, so `growth > 0 && count > 0` never holds | first load returns 5; an insert brings the total to 7: no "+2" badge appears | compare the new total with the current count and show the growth | not executed | LiveCounter.GrowthLostAfterFirstLoad | LiveCounter.Counter.FetchCountCurrent |
