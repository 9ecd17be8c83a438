# School website admin core in Dafny

This project models the admin side of a school website built as a React
single-page app on a hosted Postgres/auth backend. It also models the public
School Life gallery page. Dafny proves properties of the model. The modelled
parts are:

- **Auth** (`auth.dfy`): the `useAuth` hook's admin gating. `verifyPasscode`
  checks the address's domain (the segment after the first `@` must be
  `gmail.com`) and the passcode `143143`. On success it stores `"true"` in the
  `adminVerified` storage item. Any signed-in user is authenticated whenever
  that item holds `"true"`, both on an auth event and on the initial session
  lookup. The item does not record which account earned it. So on a page
  whose storage already holds it, the next user to sign in is authenticated
  without the passcode, whatever their domain (`SignInWithStoredFlag`). Auth
  events, the session lookup and sign-out change the state. The invariant
  `Valid` (authenticated ⇒ a user is signed in and the stored flag is
  `"true"`) holds throughout.
- **AdminLogin** (`admin_login.dfy`): the admin login page. Its form state is
  checked against one fixed credential pair.
- **AdminDashboard** (`admin_dashboard.dfy`): the dashboard's render gating
  (spinner, nothing, or content), the redirect to the login page, the sign-out
  handler and the four statistic tiles.
- **SchoolLife** (`school_life.dfy`): the public gallery. It covers the
  category filter, the per-category button counts, the empty state, the badge
  label and the badge colour.
- **AnnouncementManager**, **LeadershipManager**, **LearningMaterialsManager**
  and **GalleryManager** (one file each): the four admin editors. Each has a
  form, the id of the row being edited, and handlers for edit, submit (insert
  or update), cancel and delete.
- **JsString**, **JsNumber** and **Common**: the JavaScript semantics the
  handlers rely on:
  - `split('@')`;
  - `parseInt` (section 19.2.5 of ECMA-262) and integer `toString`;
  - ASCII `toUpperCase`;
  - the truthiness tests `x || ""`, `x || 0`, `if (id)` and
    `error.message || fallback`.

Each component whose handlers update React state is a class. Its `useState`
variables are fields and its handlers are methods with `modifies this`.
Backend calls, `confirm()` dialogs and auth events are parameters, so every
reply (`DbReply`, `SignOutReply`, the session user, the dialog's answer) is
an input. Requests, toasts and navigation targets are outputs. A save runs
in two halves:

- `BeginSubmit` sets `isLoading` and chooses the request.
- `FinishSubmit` applies the backend's reply and clears `isLoading`, as the
  `finally` block does.

`HandleSubmit` is the two halves together.

The dashboard's `handleSignOut` awaits `signOut()` and discards its result.
The model therefore shows that the "Signed Out" toast and the redirect
follow every sign-out that does not throw, including one whose reply
carries an error.

## Model

| member | source | states |
|---|---|---|
| Common.OrEmpty | src/components/admin/LeadershipManager.tsx:102-106 | `s \|\| ""`: the value when present; "" exactly when missing or empty |
| Common.OrZero | src/components/admin/LeadershipManager.tsx:107 | `n \|\| 0`: the value when present; 0 exactly when missing or zero |
| Common.ErrorText | src/components/admin/AnnouncementManager.tsx:78 | a failed save shows the error's message when it has a non-empty one, else the fallback; never empty when the fallback is not |
| JsString.Split | src/hooks/useAuth.tsx:127 | `split` yields at least one segment, no segment holds the separator, and a string without the separator is its own single segment |
| JsString.JoinSplit | src/hooks/useAuth.tsx:127 | joining the segments of `split` with the separator gives the string back, so no character is lost |
| JsString.SplitJoin | src/hooks/useAuth.tsx:127 | splitting a join of separator-free segments gives those segments back |
| JsString.SplitPrefix | src/hooks/useAuth.tsx:127 | a separator-free head followed by the separator is the first segment, and the rest splits on its own |
| JsString.UpperChar | src/pages/SchoolLife.tsx:154 | upper-casing maps a–z to A–Z (code point minus 32) and leaves every other character as it is |
| JsNumber.TrimStart | src/components/admin/LeadershipManager.tsx:213 | `parseInt` skips exactly the leading white space: what remains is a suffix that does not start with white space |
| JsNumber.DigitPrefix | src/components/admin/LeadershipManager.tsx:213 | `parseInt` reads the longest prefix of digits of the radix: all digits, a prefix, and followed by a non-digit or the end |
| JsNumber.NatToString | src/components/admin/LeadershipManager.tsx:55 | `toString` of a natural number is a non-empty decimal numeral without a leading zero |
| JsNumber.ParseInt | src/components/admin/LeadershipManager.tsx:213 | `parseInt` of a blank string is NaN; a negative result needs a leading '-' after the white space; a string starting with 1-9 parses to a non-negative number |
| JsNumber.ParseIntOrZero | src/components/admin/LeadershipManager.tsx:213 | `parseInt(s) \|\| 0` is the parsed number, and 0 exactly when the parse is NaN or 0 |
| JsNumber.IntToString | src/components/admin/LeadershipManager.tsx:55 | `toString` of an integer is non-empty, starts with '-' iff the integer is negative, and is all decimal digits otherwise |
| JsNumber.ParseIntToString | src/components/admin/LeadershipManager.tsx:55 | `parseInt(n.toString())` is `n` for every integer `n` |
| JsNumber.NormaliseTwice | src/components/admin/LeadershipManager.tsx:55 | the submit-time normalisation of the order leaves the value the input handler stored unchanged |
| JsNumber.BlankParsesToNaN | src/components/admin/LeadershipManager.tsx:213 | an empty or all-blank order field parses to NaN, so the order becomes 0 |
| Auth.EmailDomain | src/hooks/useAuth.tsx:127 | `email.split('@')[1]` exists exactly when the address has an '@', and holds no '@' |
| Auth.DomainAllowed | src/hooks/useAuth.tsx:128 | an address without '@' never passes the domain check (`DomainCheck` gives the full characterisation) |
| Auth.EmailDomainOf | src/hooks/useAuth.tsx:127 | the domain is the text between the first '@' and the next '@' or the end |
| Auth.DomainCheck | src/hooks/useAuth.tsx:8 | an address `local@domain` passes the domain check if and only if the domain is gmail.com |
| Auth.SecondAtIgnored | src/hooks/useAuth.tsx:127-128 | only the first '@' counts: `local@gmail.com@anything` passes the domain check |
| Auth.AuthState.constructor | src/hooks/useAuth.tsx:11-13 | a fresh hook has no user, is not authenticated, is loading, and sees the stored flag |
| Auth.AuthState.OnAuthStateChange | src/hooks/useAuth.tsx:18-39 | the user follows the session; no user or SIGNED_OUT clears the flag and authentication; a user with the stored flag is authenticated; `Valid` is kept |
| Auth.AuthState.HandleInitialSession | src/hooks/useAuth.tsx:43-55 | an existing session user is taken over and authenticated when the flag is stored; loading ends in every case; `Valid` is kept |
| Auth.AuthState.VerifyPasscode | src/hooks/useAuth.tsx:118-152 | the answers are: not signed in; verification failed when the address is missing; domain not authorized; invalid passcode; accepted only with an allowed domain and passcode 143143. Acceptance stores the flag and authenticates; every refusal changes nothing |
| Auth.SignInWithStoredFlag | src/hooks/useAuth.tsx:20-27 | a user signing in is authenticated iff the stored flag is already "true", with no passcode check and whatever the address |
| Auth.AuthState.SignOut | src/hooks/useAuth.tsx:154-172 | the flag and authentication are cleared whatever the service answers; the error returned is the service's, the fixed message when it throws, or none |
| AdminLogin.LoginPage.constructor | src/pages/admin/AdminLogin.tsx:13-17 | empty fields, password hidden, not loading, no error |
| AdminLogin.LoginPage.SetUsername | src/pages/admin/AdminLogin.tsx:81 | the username takes the typed value; nothing else changes |
| AdminLogin.LoginPage.SetPassword | src/pages/admin/AdminLogin.tsx:97 | the password takes the typed value; nothing else changes |
| AdminLogin.LoginPage.HandleLogin | src/pages/admin/AdminLogin.tsx:21-43 | navigates to the dashboard if and only if the credentials are admin/admin123, with the error cleared and the success toast; otherwise sets the error and the destructive toast; loading ends. Afterwards the error alert (lines 66-70) is shown iff the attempt failed, and the button caption (line 116) is back to "Sign In" |
| AdminLogin.LoginPage.ToggleShowPassword | src/pages/admin/AdminLogin.tsx:103 | flips password visibility and nothing else |
| AdminLogin.LoginPage.PasswordInputType | src/pages/admin/AdminLogin.tsx:94 | the input is of type "text" exactly when the password is shown, "password" otherwise |
| AdminDashboard.ScreenFor | src/pages/admin/AdminDashboard.tsx:77-90 | the spinner shows iff either loading flag is set; the content shows iff authenticated and neither flag is set; nothing shows iff not authenticated and neither flag is set |
| AdminDashboard.StatCount | src/pages/admin/AdminDashboard.tsx:95 | `data?.length \|\| 0`: the collection's size, or 0 while there is none |
| AdminDashboard.Stats | src/pages/admin/AdminDashboard.tsx:92-117 | four tiles in order (Announcements, Gallery Images, Learning Materials, Leadership Team), each counting its query's rows |
| AdminDashboard.Dashboard.constructor | src/pages/admin/AdminDashboard.tsx:24 | the page starts loading |
| AdminDashboard.Dashboard.CheckAuth | src/pages/admin/AdminDashboard.tsx:31-56 | waits while auth loads; redirects an unauthenticated user to /admin/login; greets an authenticated admin and lifts loading, after which the content shows iff auth is done and authenticated |
| AdminDashboard.Dashboard.HandleSignOut | src/pages/admin/AdminDashboard.tsx:58-75 | redirects to the login page with "Signed Out" iff `signOut` does not throw; otherwise stays with the destructive "Sign Out Error" |
| SchoolLife.ByCategory | src/pages/SchoolLife.tsx:88 | the filter never lengthens the gallery and keeps only images of the category |
| SchoolLife.FilteredImages | src/pages/SchoolLife.tsx:86-88 | the shown images are never more than the gallery; for a selection other than "all" each has the selected category |
| SchoolLife.ShowsEmptyState | src/pages/SchoolLife.tsx:178 | an empty gallery always shows "No Images Found"; under "all" it shows iff the gallery is empty |
| SchoolLife.Categories | src/pages/SchoolLife.tsx:78-84 | five buttons, "all" first with the gallery's size, and each button's count is the number of images its filter shows |
| SchoolLife.FilterIsSubsequence | src/pages/SchoolLife.tsx:86-88 | the category filter keeps gallery order: its result is a subsequence of the gallery |
| SchoolLife.FilterKeepsExactlyCategory | src/pages/SchoolLife.tsx:88 | the filter keeps every image of the category as often as it occurs, and no other image |
| SchoolLife.FilteredImagesSpec | src/pages/SchoolLife.tsx:86-88 | "all" shows the whole gallery; any other selection shows exactly the images of that category, in order |
| SchoolLife.EmptyStateIff | src/pages/SchoolLife.tsx:178 | "No Images Found" shows iff no image has the selected category (for "all", iff the gallery is empty) |
| SchoolLife.CountsAddUp | src/pages/SchoolLife.tsx:78-84 | when every image is in one of the four categories, the four counts add up to the "all" count |
| SchoolLife.CountIsOccurrences | src/pages/SchoolLife.tsx:80-83 | a category's count is the number of times it occurs among the images' categories |
| SchoolLife.SampleGalleryCount | src/pages/SchoolLife.tsx:11-76 | the built-in gallery holds five academics images and one each of sports, events and campus |
| SchoolLife.NoButtonShowsEmptyState | src/pages/SchoolLife.tsx:121-134 | when every category has an image, no filter button leads to the empty state |
| SchoolLife.SampleGalleryNeverEmpty | src/pages/SchoolLife.tsx:178 | with the built-in gallery, no button leads to the empty state |
| SchoolLife.CategoryColor | src/pages/SchoolLife.tsx:90-103 | the gray default is used exactly for categories other than the four named ones |
| SchoolLife.CategoryColorsDistinct | src/pages/SchoolLife.tsx:90-103 | the four named categories get four different colours |
| SchoolLife.BadgeLabel | src/pages/SchoolLife.tsx:154 | the badge keeps the category's length, upper-cases its first character and keeps the rest |
| SchoolLife.BadgeMatchesButton | src/pages/SchoolLife.tsx:79-84 | each named category's badge reads like its filter button's caption |
| SchoolLife.SchoolLifePage.constructor | src/pages/SchoolLife.tsx:8-11 | the page lists the built-in images and starts on "all", which shows the whole gallery |
| SchoolLife.SchoolLifePage.SelectCategory | src/pages/SchoolLife.tsx:125 | clicking a button selects its category, and the number of images then shown is the count on that button |
| AnnouncementManager.FormOf | src/components/admin/AnnouncementManager.tsx:86-94 | the edit form of a row, saved back unchanged, gives the row itself |
| AnnouncementManager.UnchangedEditKeepsRow | src/components/admin/AnnouncementManager.tsx:86-94 | saving an unchanged edit form writes the row back as it was; an update sets exactly the four form columns |
| AnnouncementManager.AnnouncementManager.constructor | src/components/admin/AnnouncementManager.tsx:16-23 | empty form with type "info" and category "General", nothing edited, not loading |
| AnnouncementManager.AnnouncementManager.ResetForm | src/components/admin/AnnouncementManager.tsx:29-37 | the form returns to its defaults and nothing is being edited |
| AnnouncementManager.AnnouncementManager.HandleEdit | src/components/admin/AnnouncementManager.tsx:86-94 | the form takes the row's fields and the row's id is the one edited |
| AnnouncementManager.AnnouncementManager.BeginSubmit | src/components/admin/AnnouncementManager.tsx:39-69 | loading starts; an update of the edited id when that id is non-empty, an insert otherwise; the form's heading (line 131) reads "Edit Announcement" iff the request is an update |
| AnnouncementManager.AnnouncementManager.FinishSubmit | src/components/admin/AnnouncementManager.tsx:52-83 | success resets the form and toasts "updated"/"created"; failure keeps the form and toasts the error text; loading ends either way |
| AnnouncementManager.AnnouncementManager.HandleSubmit | src/components/admin/AnnouncementManager.tsx:39-84 | the request is built from the form as it was; afterwards loading is off, the form is reset on success and kept on failure, and the toast is destructive iff the save failed |
| AnnouncementManager.AnnouncementManager.HandleDelete | src/components/admin/AnnouncementManager.tsx:96-122 | nothing happens unless confirmed; then the row is deleted and the success or failure toast is shown |
| LeadershipManager.DataToSave | src/components/admin/LeadershipManager.tsx:53-56 | `parseInt(order.toString()) \|\| 0` gives back the form's integer order, so the saved row is the form |
| LeadershipManager.FormOf | src/components/admin/LeadershipManager.tsx:98-110 | the edit form of a row with no null optional column, saved back unchanged, gives the row itself |
| LeadershipManager.UnchangedEditSave | src/components/admin/LeadershipManager.tsx:98-110 | an unchanged edit writes back every set column; null optional columns come back as "" (order 0); the row is unchanged iff none was null; the card image is unchanged either way |
| LeadershipManager.CardImage | src/components/admin/LeadershipManager.tsx:269 | the card shows the row's image address when it is non-empty, otherwise the placeholder; never an empty `src` |
| LeadershipManager.LeadershipManager.constructor | src/components/admin/LeadershipManager.tsx:15-26 | empty form with order 0, nothing edited, not loading |
| LeadershipManager.LeadershipManager.ResetForm | src/components/admin/LeadershipManager.tsx:32-44 | every text field empty, order 0, nothing being edited |
| LeadershipManager.LeadershipManager.HandleEdit | src/components/admin/LeadershipManager.tsx:98-110 | the form takes the row with missing optional columns as "" and a missing order as 0; the row's id is the one edited |
| LeadershipManager.LeadershipManager.SetDisplayOrder | src/components/admin/LeadershipManager.tsx:213 | the order becomes `parseInt(text) \|\| 0`; no other field changes |
| LeadershipManager.LeadershipManager.BeginSubmit | src/components/admin/LeadershipManager.tsx:46-81 | loading starts; the normalised form goes to an update of the edited id when non-empty, an insert otherwise |
| LeadershipManager.LeadershipManager.FinishSubmit | src/components/admin/LeadershipManager.tsx:64-95 | success resets the form and toasts "updated"/"added"; failure keeps it and toasts the error text; loading ends either way |
| LeadershipManager.LeadershipManager.HandleSubmit | src/components/admin/LeadershipManager.tsx:46-96 | the request carries the form as it was; loading ends; reset on success, kept on failure; destructive toast iff the save failed |
| LeadershipManager.LeadershipManager.HandleDelete | src/components/admin/LeadershipManager.tsx:112-138 | nothing happens unless confirmed; then the row is deleted and the success or failure toast is shown |
| LearningMaterialsManager.DownloadsShown | src/components/admin/LearningMaterialsManager.tsx:275 | the shown download count is the row's count, or 0 when it is null |
| LearningMaterialsManager.FormOf | src/components/admin/LearningMaterialsManager.tsx:91-102 | the edit form of a row with a description and a file size, saved back unchanged, gives the row itself |
| LearningMaterialsManager.UnchangedEditSave | src/components/admin/LearningMaterialsManager.tsx:91-102 | an unchanged edit writes back every set column and turns a null description or file size into ""; the row is unchanged iff neither was null; the download count shown never changes |
| LearningMaterialsManager.LearningMaterialsManager.constructor | src/components/admin/LearningMaterialsManager.tsx:15-25 | all seven fields empty, nothing edited, not loading |
| LearningMaterialsManager.LearningMaterialsManager.ResetForm | src/components/admin/LearningMaterialsManager.tsx:31-42 | all seven fields empty and nothing being edited |
| LearningMaterialsManager.LearningMaterialsManager.HandleEdit | src/components/admin/LearningMaterialsManager.tsx:91-102 | the form takes the row with a missing description or file size as ""; the row's id is the one edited |
| LearningMaterialsManager.LearningMaterialsManager.BeginSubmit | src/components/admin/LearningMaterialsManager.tsx:44-74 | loading starts; an update of the edited id when non-empty, an insert otherwise |
| LearningMaterialsManager.LearningMaterialsManager.FinishSubmit | src/components/admin/LearningMaterialsManager.tsx:57-88 | success resets the form and toasts "updated"/"created"; failure keeps it and toasts the error text; loading ends either way |
| LearningMaterialsManager.LearningMaterialsManager.HandleSubmit | src/components/admin/LearningMaterialsManager.tsx:44-89 | the request carries the form as it was; loading ends; reset on success, kept on failure; destructive toast iff the save failed |
| LearningMaterialsManager.LearningMaterialsManager.HandleDelete | src/components/admin/LearningMaterialsManager.tsx:104-130 | nothing happens unless confirmed; then the row is deleted and the success or failure toast is shown |
| GalleryManager.InEditMode | src/components/admin/GalleryManager.tsx:166 | no card is in edit mode while nothing is being edited; a card in edit mode has a non-empty edited id or an empty id of its own |
| GalleryManager.EditModeCards | src/components/admin/GalleryManager.tsx:166 | lists exactly the positions of the cards whose item id is the one being edited, and none when no item is |
| GalleryManager.AtMostOneEditForm | src/components/admin/GalleryManager.tsx:166 | with distinct ids at most one card renders the edit form, and none when nothing is being edited |
| GalleryManager.FormOf | src/components/admin/GalleryManager.tsx:82-91 | the edit form of an item with a description and a date, saved back unchanged, gives the item itself |
| GalleryManager.UnchangedEditSave | src/components/admin/GalleryManager.tsx:82-91 | an unchanged edit writes back every set column and turns a null description or date into ""; the item is unchanged iff neither was null |
| GalleryManager.GalleryManager.constructor | src/components/admin/GalleryManager.tsx:17-25 | default form with category "general", nothing edited, not creating |
| GalleryManager.GalleryManager.StartCreate | src/components/admin/GalleryManager.tsx:93-96 | the default form is loaded and the create form opens; the edited id is kept |
| GalleryManager.GalleryManager.StartEdit | src/components/admin/GalleryManager.tsx:82-91 | the item's form is loaded and its card switches to edit mode; the create flag is kept |
| GalleryManager.GalleryManager.HandleSubmit | src/components/admin/GalleryManager.tsx:27-59 | an update of the given id when it is non-empty, an insert otherwise; success closes both forms, resets the fields and toasts "updated"/"created"; failure changes nothing and toasts the fixed error |
| GalleryManager.GalleryManager.CancelCreate | src/components/admin/GalleryManager.tsx:154 | only the create form closes |
| GalleryManager.GalleryManager.CancelEdit | src/components/admin/GalleryManager.tsx:203 | only edit mode ends |
| GalleryManager.GalleryManager.HandleDelete | src/components/admin/GalleryManager.tsx:61-80 | nothing happens unless confirmed; then the item is deleted and the success or failure toast is shown |

## Left out

- Backend calls (`from(...).insert/update/delete`, `auth.signOut`, `getSession`, `onAuthStateChange`) are not executed. Their replies are parameters and the requests are returned values.
- `refetch()` and `queryClient.invalidateQueries` are not modelled. They only reload lists that the model takes as inputs.
- The query hooks (`useAnnouncements`, `useSchoolLife`, `useLearningMaterials`, `useLeadership`) are not modelled. Their data are plain sequences given to the functions that use them.
- `ensureAdminUser` is left out. Its upsert into `admin_users` swallows every error and changes no state of the hook.
- `signInWithGoogle` is left out. It starts an OAuth redirect and changes no modelled state.
- Toasts are returned as values. The toast queue, timers and rendering are not modelled.
- `console.log`/`console.error` output is left out.
- Asynchrony is reduced to a fixed order: one handler runs to completion before the next. Interleavings of overlapping submits, and React's batching of state updates, are not modelled.
- The browser's `required`-field validation, the form markup and the layout are not modelled.
- `confirm()` is an input boolean.
- `useNavigate` is not modelled. Navigation is the returned path.
- `adminVerified` is a field of the auth class, so writes to local storage from other tabs are not modelled.
- AdminDashboard.Dashboard.CheckAuth: `authLoading` and `isAuthenticated` are inputs rather than a shared `AuthState`. The dashboard imports its hook from a path that also resolves to a separate `useAuth.ts`, and useAuth.ts is not part of this model.
- `toLocaleDateString` formatting of gallery dates is not modelled: it depends on the runtime's locale data.
- The leadership card image's `onError` fallback to the placeholder is not modelled: it reacts to a failed image load.
- JsNumber.ParseIntToString: integers are unbounded here. ECMAScript numbers lose precision above 2^53, and `toString` switches to exponent notation from 10^21. For such display orders `parseInt(n.toString())` is not `n`, which the model does not capture.
- LeadershipManager.DataToSave: relies on `ParseIntToString`, so for an order of 10^21 or more (exponent notation, which `parseInt` reads back as its leading digit) the model saves the form's order where the source would save another number.
- LeadershipManager.LeadershipManager.SetDisplayOrder: the typed text is parsed as an unbounded integer; digit strings beyond 2^53 lose precision in the source and are not modelled.
- JsNumber.NormaliseTwice: holds for unbounded integers; for orders of 10^21 or more the source's second normalisation changes the value.
- JsString.UpperChar: only ASCII letters are upper-cased. ECMAScript's full Unicode case mapping is not modelled, since the category names are ASCII.
- Columns that the database declares non-null (titles, names, categories, file addresses) are modelled as plain strings; rows where they are null are not modelled.
- Pages outside the admin gating and the gallery (home, about, contact and the other static pages) are not part of this model.
