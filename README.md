# Dose (CaffeineGuard) — a verified model of its core rules

Dose is an Android app for logging caffeine. A user signs up or logs in. The
app stores one password per user name and remembers the current user. Each
user then logs drinks ("doses") into a local table. From that table the
caffeine screen derives:

- a history grouped by drink;
- an active caffeine level and a status tier;
- a sleep forecast;
- a crash prediction.

Doses are added from a quick-add menu, from a custom dialog, or by scanning a
drink with the camera's image labeller.

This project restates those rules in Dafny and proves what they promise.

- `DrinkModel` (`drink_model.dfy`) is the `Drink` row and the icon-tag mapping.
- `DrinkDao` (`drink_dao.dfy`) is the drinks table as a class. Its rows are keyed by `id`. Its operations are the per-user query (newest first), insert, delete-by-key and delete-all-for-user. Isolation between users is proved.
- `History` (`history.dfy`) is the history list. Drinks are grouped by (name, mg, icon tag), each group showing its newest drink and a count, newest group first. The per-row delete removes the newest drink of the group.
- `Forecast` (`forecast.dfy`) covers:
  - the active level, a plain sum;
  - the four status bands;
  - the hours to sleep and the Today/Tomorrow/In N days label;
  - the crash card.
- `AddDose` (`add_dose.dfy`) covers:
  - the scan loop over the labeller's labels;
  - the quick-add icon tags;
  - the dialog's digit filter and confirm guard;
  - the insert that follows.
- `Session` (`session.dfy`) is the credential and session store as a class. It holds a password map keyed by trimmed names, an optional current user and a logged-in flag.
- `AuthScreens` (`auth_screens.dfy`) holds the login, sign-up and welcome-back button handlers and the biometric callbacks. Each is modelled as a method returning an error message or a success.
- `App` (`app.dfy`) holds the start-route rule and the navigation callbacks that change the session.
- `Text` (`text.dfy`) models the Kotlin string functions the rules use: `trim`, `lowercase`, `contains`, `isDigit`, `toString` and `toIntOrNull`. `Ordering` (`ordering.dfy`) models `maxByOrNull`, which keeps the first maximum, and the stable `sortedByDescending`. `Wrappers` (`wrappers.dfy`) holds `Option`.

Times are epoch milliseconds (`int`). The image labeller's output is an input,
a sequence of (text, confidence) labels. Calendar dates of "now" and of the
sleep instant are inputs too. So is the drink's random UUID.

## Model

| member | source | states |
|---|---|---|
| DrinkModel.IconOf | app/src/main/java/com/example/caffeineguard/model/Drink.kt:19-29 | each icon is chosen by exactly its two tags; every other tag, "" included, gives the cafe cup |
| DrinkModel.IconMatchIsCaseSensitive | app/src/main/java/com/example/caffeineguard/model/Drink.kt:20-28 | the match is exact and case-sensitive: "Coffee" is the coffee cup, while "coffee", "tea", "", "Latte" and "LocalCafe" all give the default cafe cup |
| Ordering.LatestIndex | app/src/main/java/com/example/caffeineguard/ui/CaffeineScreen.kt:87 | `maxByOrNull`: the chosen element has the largest key, and every earlier element a strictly smaller one (first maximum wins) |
| Ordering.SortDesc | app/src/main/java/com/example/caffeineguard/ui/CaffeineScreen.kt:90 | `sortedByDescending`: a permutation of the input, ordered by non-increasing key |
| DrinkDao.Query | app/src/main/java/com/example/caffeineguard/data/DrinkDao.kt:10-11 | the per-user query holds exactly the user's rows, each as many times as in the table, ordered by `timeAdded` descending |
| DrinkDao.RowsOfCounts | app/src/main/java/com/example/caffeineguard/data/DrinkDao.kt:10-11 | `WHERE userId = :user` keeps each of the user's rows as often as it occurs in the table, and no other row |
| DrinkDao.DrinkTable.InsertDrink | app/src/main/java/com/example/caffeineguard/data/DrinkDao.kt:13-14 | a row with a fresh key is appended; a row whose key is taken is refused and the table is unchanged; keys stay unique |
| DrinkDao.InsertIsolation | app/src/main/java/com/example/caffeineguard/data/DrinkDao.kt:13-14 | inserting a row of user A leaves user B's query identical |
| DrinkDao.InsertVisibleToOwner | app/src/main/java/com/example/caffeineguard/data/DrinkDao.kt:10-14 | after an insert, the owner's query is the old one plus the new row |
| DrinkDao.DrinkTable.DeleteDrink | app/src/main/java/com/example/caffeineguard/data/DrinkDao.kt:16-17 | the rows become those without the deleted key; keys stay unique |
| DrinkDao.WithoutIdMembers | app/src/main/java/com/example/caffeineguard/data/DrinkDao.kt:16-17 | delete-by-key keeps exactly the rows with another key |
| DrinkDao.WithoutId | app/src/main/java/com/example/caffeineguard/data/DrinkDao.kt:16-17 | deleting by key never adds rows; `WithoutIdMembers` states exactly which rows remain |
| DrinkDao.DeleteRemovesExactlyOne | app/src/main/java/com/example/caffeineguard/data/DrinkDao.kt:16-17 | with unique keys, deleting an existing row's key removes that one row and nothing else |
| DrinkDao.DeleteIsolation | app/src/main/java/com/example/caffeineguard/data/DrinkDao.kt:16-17 | deleting a row that is not user B's leaves B's query identical |
| DrinkDao.DrinkTable.DeleteAllForUser | app/src/main/java/com/example/caffeineguard/data/DrinkDao.kt:19-21 | all of the user's rows go, the user's query becomes empty, keys stay unique |
| DrinkDao.WithoutUser | app/src/main/java/com/example/caffeineguard/data/DrinkDao.kt:19-21 | delete-all-for-user keeps exactly the rows of other users |
| DrinkDao.DeleteAllIsolation | app/src/main/java/com/example/caffeineguard/data/DrinkDao.kt:19-21 | delete-all for A empties A's query and leaves every other user's query identical |
| DrinkDao.WithoutIdKeepsUnique | app/src/main/java/com/example/caffeineguard/model/Drink.kt:12 | deleting by key keeps the primary key unique |
| DrinkDao.WithoutUserKeepsUnique | app/src/main/java/com/example/caffeineguard/model/Drink.kt:12 | deleting a user's rows keeps the primary key unique |
| History.BucketMembers | app/src/main/java/com/example/caffeineguard/ui/CaffeineScreen.kt:85 | a `groupBy` bucket holds exactly the drinks with its (name, mg, icon) key |
| History.DistinctKeysMembers | app/src/main/java/com/example/caffeineguard/ui/CaffeineScreen.kt:85 | the `groupBy` keys are distinct and are exactly the keys that have a drink |
| History.GroupDrinks | app/src/main/java/com/example/caffeineguard/ui/CaffeineScreen.kt:83-91 | the rows are ordered newest representative first, one row per distinct key |
| History.GroupingPreservesTotal | app/src/main/java/com/example/caffeineguard/ui/CaffeineScreen.kt:83-88 | the group counts add up to the number of drinks |
| History.OneGroupPerKey | app/src/main/java/com/example/caffeineguard/ui/CaffeineScreen.kt:85-88 | no key has two rows, and every drink's key has a row |
| History.GroupRepresentatives | app/src/main/java/com/example/caffeineguard/ui/CaffeineScreen.kt:86-88 | each row shows the newest drink of its bucket (first one on equal times) and counts the whole bucket |
| History.ToDelete | app/src/main/java/com/example/caffeineguard/ui/CaffeineScreen.kt:574-581 | none exactly when no drink has the row's key; otherwise a drink with that key, no older than any other with that key |
| History.DeleteOneOfGroup | app/src/main/java/com/example/caffeineguard/ui/CaffeineScreen.kt:574-582 | the delete button removes exactly the chosen drink, one of the user's own, or nothing when none matches; other users' drinks are untouched |
| Forecast.ActiveLevel | app/src/main/java/com/example/caffeineguard/ui/CaffeineScreen.kt:194 | the level is the exact total of all logged milligrams, with no decay; it is never negative for non-negative doses |
| Forecast.ActiveLevelAsWritten | app/src/main/java/com/example/caffeineguard/ui/CaffeineScreen.kt:194 | the as-written half of the :194 finding: the source's `Int` sum, always within the 32-bit range |
| Forecast.Wrap32 | app/src/main/java/com/example/caffeineguard/ui/CaffeineScreen.kt:194 | Kotlin `Int` addition: the result lies in the 32-bit range and is congruent to the true sum modulo 2^32 |
| Forecast.AsWrittenIsWrappedTotal | app/src/main/java/com/example/caffeineguard/ui/CaffeineScreen.kt:194 | the source's `sumOf` equals the true total reduced into 32 bits |
| Forecast.AsWrittenLevelWraps | app/src/main/java/com/example/caffeineguard/ui/CaffeineScreen.kt:194 | two doses of 2147483647 mg give a level of -2 and RELAXED as written, but DANGER by the true total |
| Forecast.LevelCoversEachDose | app/src/main/java/com/example/caffeineguard/ui/CaffeineScreen.kt:194 | with non-negative doses, no single dose exceeds the level |
| Forecast.LevelOfSnoc | app/src/main/java/com/example/caffeineguard/ui/CaffeineScreen.kt:194 | logging one more drink raises the level by exactly its dose |
| Forecast.StatusOf | app/src/main/java/com/example/caffeineguard/ui/CaffeineScreen.kt:234-239 | DANGER iff level > 400, HIGH ENERGY iff 250 < level <= 400, PRODUCTIVE iff 100 < level <= 250, RELAXED otherwise |
| Forecast.StatusMonotone | app/src/main/java/com/example/caffeineguard/ui/CaffeineScreen.kt:234-239 | a higher level never gives a calmer tier |
| Forecast.StatusBoundaries | app/src/main/java/com/example/caffeineguard/ui/CaffeineScreen.kt:235-238 | 400, 250 and 100 belong to the band below them |
| Forecast.StatusTextsDistinct | app/src/main/java/com/example/caffeineguard/ui/CaffeineScreen.kt:234-239 | the four banners "⚠️ DANGER ZONE", "⚡ HIGH ENERGY", "✅ PRODUCTIVE" and "💤 RELAXED" are pairwise different, so the text identifies the tier |
| Forecast.StatusCoversEachDose | app/src/main/java/com/example/caffeineguard/ui/CaffeineScreen.kt:194-239 | the tier shown is never calmer than the tier of any single dose |
| Forecast.HoursToSleep | app/src/main/java/com/example/caffeineguard/ui/CaffeineScreen.kt:204 | zero at 50 mg or less; otherwise the largest h with 20·h <= level − 50; never negative |
| Forecast.HoursToSleepMonotone | app/src/main/java/com/example/caffeineguard/ui/CaffeineScreen.kt:204 | more caffeine never means fewer hours to wait |
| Forecast.DayDifference | app/src/main/java/com/example/caffeineguard/ui/CaffeineScreen.kt:208-212 | the number of calendar days between the two dates: same as the source's rule within a year, 1 for the next day, 0 for the same day |
| Forecast.DayDifferenceAsWritten | app/src/main/java/com/example/caffeineguard/ui/CaffeineScreen.kt:212 | the as-written half of the :212 finding: for the next calendar day it gives 1 except exactly from day 366 of a leap year |
| Forecast.DayDifferenceCountsDays | app/src/main/java/com/example/caffeineguard/ui/CaffeineScreen.kt:212 | the date n days later is exactly n days away |
| Forecast.DayDifferenceAsWrittenMissesLeapDay | app/src/main/java/com/example/caffeineguard/ui/CaffeineScreen.kt:212 | from 31 December 2024 to 1 January 2025 the source's rule gives 0 ("Today"); the calendar count gives 1 ("Tomorrow") |
| Forecast.SleepLabel | app/src/main/java/com/example/caffeineguard/ui/CaffeineScreen.kt:215-220 | "Sleep anytime" iff level <= 50; else Today iff difference <= 0, Tomorrow iff 1, "In N days" with N the difference iff >= 2 |
| Forecast.Sleep | app/src/main/java/com/example/caffeineguard/ui/CaffeineScreen.kt:204-220 | the hours are `HoursToSleep(level)`, the instant is now plus that many hours, and the label is `SleepLabel` of the level and the day count; "Sleep anytime" iff level <= 50. Built on the corrected `DayDifference` (Findings, :212), so a next-day sleep date always reads "Tomorrow"; as written it reads "Today" from 31 December of a leap year |
| Forecast.Crash | app/src/main/java/com/example/caffeineguard/ui/CaffeineScreen.kt:223-233 | no card iff no drinks; a crash is expected iff level > 30 and some drink's time + 4 h is after now, at the newest drink's time + 4 h |
| Forecast.CrashNeedsMoreThan30 | app/src/main/java/com/example/caffeineguard/ui/CaffeineScreen.kt:233 | at exactly 30 mg the card says stable, however recent the drink |
| Forecast.ForecastOf | app/src/main/java/com/example/caffeineguard/ui/CaffeineScreen.kt:194-239 | the screen's forecast is the active level, its status tier and that tier's banner text, the sleep advice for that level and the crash card; with no drinks: level 0, RELAXED, "Sleep anytime" and no crash card |
| AddDose.Classify | app/src/main/java/com/example/caffeineguard/ui/CaffeineScreen.kt:116-146 | each drink is chosen exactly when its keywords occur and no earlier branch's do, in the order espresso, coffee/mug/cup, tea, soda/can/cola, energy |
| AddDose.Detect | app/src/main/java/com/example/caffeineguard/ui/CaffeineScreen.kt:112-115 | a label yields a drink iff its confidence is above 0.7 and its lower-cased text classifies, and then it is that classification |
| AddDose.FirstDetection | app/src/main/java/com/example/caffeineguard/ui/CaffeineScreen.kt:111-148 | nothing iff no label is confident and matching; otherwise the drink of the first such label, all earlier labels matching nothing |
| AddDose.AnalyzeLabels | app/src/main/java/com/example/caffeineguard/ui/CaffeineScreen.kt:106-160 | the loop stops at the first confident match and takes its name, mg and tag; with no match the name is "Unknown Scan", mg "" and the previous tag stays |
| AddDose.EspressoCupIsEspresso | app/src/main/java/com/example/caffeineguard/ui/CaffeineScreen.kt:116-127 | "espresso cup" is espresso: the espresso branch comes before "cup" |
| AddDose.TeacupIsCoffee | app/src/main/java/com/example/caffeineguard/ui/CaffeineScreen.kt:122-133 | "teacup" is read as coffee: "cup" is tested before "tea" |
| AddDose.EnergyDrinkCanIsCola | app/src/main/java/com/example/caffeineguard/ui/CaffeineScreen.kt:134-146 | "energy drink can" is read as cola: "can" is tested before "energy" |
| AddDose.EnergyIsEnergyDrink | app/src/main/java/com/example/caffeineguard/ui/CaffeineScreen.kt:140-145 | a label saying only "energy" reaches the last branch |
| AddDose.ScanThresholdAndCase | app/src/main/java/com/example/caffeineguard/ui/CaffeineScreen.kt:112-115 | confidence 0.7 is not enough, and "ESPRESSO" matches like "espresso" |
| AddDose.FirstConfidentMatchWins | app/src/main/java/com/example/caffeineguard/ui/CaffeineScreen.kt:111-148 | the first confident match wins over a more confident later label |
| AddDose.QuickAddAsWrittenLosesIcons | app/src/main/java/com/example/caffeineguard/ui/CaffeineScreen.kt:492-501 | as written, the Monster/RedBull Large and Coca-Cola buttons store tags drawn as the cafe cup, not the menu's Bolt and LocalDrink |
| AddDose.QuickAddTagAsWritten | app/src/main/java/com/example/caffeineguard/ui/CaffeineScreen.kt:492-501 | the as-written half of the :492-501 finding: every menu entry except "Monster/RedBull Large" and "Coca-Cola" gets the menu's icon |
| AddDose.QuickAddTag | app/src/main/java/com/example/caffeineguard/ui/CaffeineScreen.kt:492-501 | with the branch names matching the menu, every menu entry is stored with the icon the menu shows for it |
| AddDose.QuickAdd | app/src/main/java/com/example/caffeineguard/ui/CaffeineScreen.kt:489-503 | a quick-add opens the dialog with the entry's name and digit-only milligrams. Its tag comes from the corrected `QuickAddTag` (Findings, :492-501), so every menu entry gets the menu's icon; as written, "Coca-Cola" and "Monster/RedBull Large" store "LocalCafe" |
| AddDose.CustomAdd | app/src/main/java/com/example/caffeineguard/ui/CaffeineScreen.kt:507-513 | the custom button opens the dialog with empty name and milligrams, the tag "LocalCafe" (drawn as the cafe cup) and the title "Add Dose" |
| AddDose.DialogTitle | app/src/main/java/com/example/caffeineguard/ui/CaffeineScreen.kt:679 | "Add Dose" iff the dialog opens without a name |
| AddDose.EditMg | app/src/main/java/com/example/caffeineguard/ui/CaffeineScreen.kt:700 | an edit is taken iff it is all digits, otherwise the field keeps its text; a digit-only field stays digit-only |
| AddDose.EditsKeepDigits | app/src/main/java/com/example/caffeineguard/ui/CaffeineScreen.kt:700 | no run of edits puts a non-digit into a digit-only field |
| AddDose.OpeningsStartWithDigits | app/src/main/java/com/example/caffeineguard/ui/CaffeineScreen.kt:489-512 | custom add, every quick-add and every scan result open the dialog with a digit-only milligram field |
| AddDose.Confirm | app/src/main/java/com/example/caffeineguard/ui/CaffeineScreen.kt:745-746 | fires iff name and mg text are both non-empty; the dose is the parsed value in the 32-bit range, 0 for digits that overflow |
| AddDose.QuickAddConfirmsMenuDose | app/src/main/java/com/example/caffeineguard/ui/CaffeineScreen.kt:491 | confirming a quick-add records exactly the menu's milligrams (round trip through the text field) |
| AddDose.OversizedDoseIsZero | app/src/main/java/com/example/caffeineguard/ui/CaffeineScreen.kt:746 | "2147483648" mg is recorded as 0 |
| AddDose.ConfirmDose | app/src/main/java/com/example/caffeineguard/ui/CaffeineScreen.kt:597-611 | a confirmed dialog appends one drink with the entered name, parsed mg, chosen time, selection's tag and signed-in user; otherwise the table is unchanged |
| Text.Trim | app/src/main/java/com/example/caffeineguard/ui/LoginScreen.kt:178-179 | `trim()`: the result is a slice of the input with only whitespace before and after it, and it has no whitespace at either end; it is empty iff the input is all whitespace |
| Text.TrimIdempotent | app/src/main/java/com/example/caffeineguard/data/SessionManager.kt:25 | trimming a trimmed name changes nothing |
| Text.Lowercase | app/src/main/java/com/example/caffeineguard/ui/CaffeineScreen.kt:112 | `lowercase()`: same length, each letter mapped to lower case |
| Text.Contains | app/src/main/java/com/example/caffeineguard/ui/CaffeineScreen.kt:116 | `contains`: true iff the keyword occurs at some position |
| Text.DecimalRoundTrip | app/src/main/java/com/example/caffeineguard/ui/CaffeineScreen.kt:491 | reading back a number's decimal text gives the number |
| Text.DecimalString | app/src/main/java/com/example/caffeineguard/ui/CaffeineScreen.kt:491 | `toString()` of a non-negative number is non-empty and all digits |
| Text.ToIntOrNullOfDecimal | app/src/main/java/com/example/caffeineguard/ui/CaffeineScreen.kt:491 | the text of a number up to `Int.MAX_VALUE` parses back to that number |
| Text.ToIntOrNull | app/src/main/java/com/example/caffeineguard/ui/CaffeineScreen.kt:746 | `toIntOrNull()`: empty text gives null; digit text gives its value if it fits in an `Int`, else null |
| Session.SessionStore.constructor | app/src/main/java/com/example/caffeineguard/data/SessionManager.kt:44-63 | an empty store: no passwords, no current user, not logged in |
| Session.SessionStore.UserExists | app/src/main/java/com/example/caffeineguard/data/SessionManager.kt:35-37 | in a valid store, a name exists iff some stored name has the same trim |
| Session.SessionStore.ValidateCredentials | app/src/main/java/com/example/caffeineguard/data/SessionManager.kt:39-42 | true iff the user exists and the password stored under the trimmed name equals the given one |
| Session.SessionStore.CurrentUsername | app/src/main/java/com/example/caffeineguard/data/SessionManager.kt:44-46 | in a valid store the current user name is trimmed |
| Session.SessionStore.IsLoggedIn | app/src/main/java/com/example/caffeineguard/data/SessionManager.kt:61-63 | in a valid store, logged in implies a current user |
| Session.SessionStore.SaveCredentials | app/src/main/java/com/example/caffeineguard/data/SessionManager.kt:27-33 | the password is stored under the trimmed name, which becomes current and logged in; afterwards the user exists and the password validates |
| Session.SessionStore.SetLoggedIn | app/src/main/java/com/example/caffeineguard/data/SessionManager.kt:48-53 | the trimmed name becomes current and the flag is set; passwords unchanged |
| Session.SessionStore.LogoutCurrentUser | app/src/main/java/com/example/caffeineguard/data/SessionManager.kt:55-59 | only the flag is cleared; current user and passwords unchanged |
| Session.SessionStore.DeleteUser | app/src/main/java/com/example/caffeineguard/data/SessionManager.kt:65-76 | the trimmed name's password is removed; current user and flag are cleared iff that name was current, else untouched |
| Session.SessionStore.ClearAll | app/src/main/java/com/example/caffeineguard/data/SessionManager.kt:78-80 | back to the empty store: not logged in, no current user |
| Session.TrimInsensitive | app/src/main/java/com/example/caffeineguard/data/SessionManager.kt:25-42 | names with the same trim are the same account for exists and validate |
| Session.PaddedNameIsSameAccount | app/src/main/java/com/example/caffeineguard/data/SessionManager.kt:25 | "bob " and " bob\t" are the account "bob" |
| Session.ValidateNeedsStoredEqualPassword | app/src/main/java/com/example/caffeineguard/data/SessionManager.kt:39-42 | for any store: validation succeeds iff a password is stored for the trimmed name and equals the given one exactly |
| Session.PasswordIsExact | app/src/main/java/com/example/caffeineguard/data/SessionManager.kt:41 | passwords are compared untrimmed and case-sensitively |
| AuthScreens.Login | app/src/main/java/com/example/caffeineguard/ui/LoginScreen.kt:178-195 | both fields trimmed; empty field → "Please enter both…", else unknown user → "No account…", else wrong password → "Incorrect password", else success with the trimmed name |
| AuthScreens.BiometricSucceeded | app/src/main/java/com/example/caffeineguard/ui/LoginScreen.kt:66-71 | logs in the remembered user iff there is one, else "No previous user found…" |
| AuthScreens.BiometricFailed | app/src/main/java/com/example/caffeineguard/ui/LoginScreen.kt:76-78 | cancel (10) and negative button (13) keep the message; other errors show "Biometric Error: " followed by the error text |
| AuthScreens.SignUp | app/src/main/java/com/example/caffeineguard/ui/SignUpScreen.kt:121-135 | empty trimmed field → "Please fill in both fields", taken name → "Username already exists…", both leaving the store unchanged; else the trimmed pair is saved and the new user exists, validates and is logged in |
| AuthScreens.WelcomeBack | app/src/main/java/com/example/caffeineguard/ui/WelcomeBackScreen.kt:128-144 | empty raw password → "Please enter your password.", missing account → "This account no longer exists…", wrong password → "Incorrect password." (store unchanged), else logged in and success |
| AuthScreens.BlankPasswordContrast | app/src/main/java/com/example/caffeineguard/ui/WelcomeBackScreen.kt:128-131 | for any non-empty all-whitespace password, the login handler answers "Please enter both…" (it trims), while the welcome-back handler gets past its "Please enter your password." check (it does not) |
| AuthScreens.SignUpThenLogin | app/src/main/java/com/example/caffeineguard/ui/SignUpScreen.kt:121-135 | sign-up under a padded name succeeds with the trimmed name, a second sign-up under the same trim is refused, and login then succeeds |
| App.PathIsInjective | app/src/main/java/com/example/caffeineguard/MainActivity.kt:45-47 | different routes have different route strings |
| App.StartRoute | app/src/main/java/com/example/caffeineguard/MainActivity.kt:44-48 | home iff a user is remembered and logged in, welcome-back iff remembered and logged out, login iff none is remembered (whatever the flag) |
| App.FreshStoreStartsAtLogin | app/src/main/java/com/example/caffeineguard/MainActivity.kt:41-48 | an empty store starts at the login screen |
| App.OnLoginSuccess | app/src/main/java/com/example/caffeineguard/MainActivity.kt:54-56 | marks the user logged in and goes home; the next start is home for the trimmed name |
| App.OnLogOut | app/src/main/java/com/example/caffeineguard/MainActivity.kt:102-104 | clears the flag only; the next start is welcome-back for the remembered user |
| App.OnDeleteAccount | app/src/main/java/com/example/caffeineguard/MainActivity.kt:106-108 | the account no longer exists; if it was the remembered user the next start is login, else the start route is unchanged |
| App.OnWelcomeBackSuccess | app/src/main/java/com/example/caffeineguard/MainActivity.kt:121-123 | marks the locked user logged in and goes home; the next start is home |
| App.SessionRoundTrip | app/src/main/java/com/example/caffeineguard/MainActivity.kt:44-123 | save, log out, come back, delete: the start routes are home, welcome-back, home, login |

## Left out

- Forecast.Sleep: uses the corrected `DayDifference`, not the source's day-of-year rule (see Findings, :212); the as-written rule is `DayDifferenceAsWritten`.
- Forecast.ForecastOf: uses the corrected `ActiveLevel` and `Sleep` (see Findings, :194 and :212); the as-written level is `ActiveLevelAsWritten`.
- AddDose.QuickAdd: uses the corrected `QuickAddTag`, not the source's `when` (see Findings, :492-501); the as-written mapping is `QuickAddTagAsWritten`.
- Compose rendering, layout, colours, haptics, toasts and the animated gauge. The gauge's float `targetProgress` is left out too, because it is presentation only.
- The camera, the permission launcher and the ML Kit labeller call. The labeller's result is an input sequence. Its float confidence is a `real`; the threshold test `> 0.7` gives the same answer for every float value.
- `sendNotification` and the `AppDatabase` singleton builder: system I/O and concurrency.
- Room's `Flow` and the `scope.launch` coroutines. DAO calls are modelled as synchronous updates of the table.
- `EncryptedSharedPreferences` and `MasterKey`. The store is three plain fields, and the `password_` key prefix is dropped. The prefix is injective and never collides with the two session keys.
- `BiometricManager.canAuthenticate` and the prompt itself. Only the success and error decisions are kept.
- The settings screen's dialogs and the `NavHost` back-stack handling. Only route selection and session effects are kept. Sign-up's navigation home needs no session call: `SignUp` already leaves the user current and logged in.
- `Calendar`, time zones, DST and the `HH:mm` formatting of the sleep and crash times. The dates of now and of the sleep instant are inputs, in the proleptic Gregorian calendar. The time-picker dialog only sets the confirmed time, which is an input.
- Kotlin strings are UTF-16. The model uses Unicode scalar characters.
- `Text.Lowercase`: maps only ASCII letters; Kotlin's `lowercase()` maps all Unicode letters.
- `Text.IsDigit`: accepts only ASCII digits. Kotlin's `isDigit` and `toIntOrNull` accept every Unicode decimal digit. `AddDose.EditMg` and `AddDose.Confirm` inherit this.
- `DrinkDao.DrinkTable.InsertDrink`: Room throws on a duplicate primary key. The model instead returns `false` and leaves the table unchanged. The thrown exception is not modelled.
- `DrinkDao.Query`: among rows with equal `timeAdded` the model keeps table order. The query leaves that order unspecified, and no contract depends on it.
- `History.GroupDrinks`: its contract states the order by representative time. It does not state the order among groups whose newest drinks share a time. The model gives first-occurrence order, as the stable sort does.
- `Forecast.Crash`: `timeAdded + 4 h` is computed on unbounded integers. The source's `Long` millisecond arithmetic could overflow only about 292 million years from the epoch.
- `caffeineMg` and `timeAdded` are unbounded in the model. The 32-bit level sum is modelled explicitly, see Findings.
- The drink's random UUID key is a parameter of `AddDose.ConfirmDose`.

## Findings

| source | as written | input that shows it | evidently intended | confidence | as-written member | corrected member |
|---|---|---|---|---|---|---|
| app/src/main/java/com/example/caffeineguard/ui/CaffeineScreen.kt:194 | `sumOf` adds `Int` doses in 32 bits and wraps around | two drinks of 2147483647 mg: level −2, status RELAXED | the true total, 4294967294 mg, status DANGER | not executed; needs absurd doses | Forecast.AsWrittenLevelWraps | Forecast.ActiveLevel |
| app/src/main/java/com/example/caffeineguard/ui/CaffeineScreen.kt:212 | day difference = day-of-year delta + 365 × year delta | now 31 December 2024 (day 366), sleep date 1 January 2025: difference 0, label "Today at …" | one calendar day, label "Tomorrow at …" | not executed | Forecast.DayDifferenceAsWrittenMissesLeapDay | Forecast.DayDifference |
| app/src/main/java/com/example/caffeineguard/ui/CaffeineScreen.kt:492-501 | the `when` names "Monster / RedBull" and "Cola / Soda", which are not menu names | quick-add "Coca-Cola" stores tag "LocalCafe" (cafe cup, not LocalDrink); "Monster/RedBull Large" stores "LocalCafe" (not Bolt) | tags "Cola" and "Bolt", matching the menu's icons | not executed | AddDose.QuickAddAsWrittenLosesIcons | AddDose.QuickAddTag |
