# Portfolio site: the stateful pieces of its UI, in Dafny

The site is a single-page React portfolio. Almost all of it is markup. Four
components have logic of their own, and this project models and proves that
logic:

- **Contact** (`contact.dfy`, module `Contact`). The four-field contact form:
  - `validateForm` checks name, email, subject and message and reports every
    failing field at once;
  - `handleChange` edits one field and blanks that field's error;
  - `handleSubmit` drives the `isSubmitting` and `isSubmitted` flags. The send
    is only simulated: one timer ends it and clears the form, a second timer
    hides the success message.
- **Hero** (`hero.dfy`, module `Hero`). The typewriter that types, pauses,
  deletes and rotates through three role titles. Its two timer callbacks are
  the events `Tick` and `PauseElapsed`.
- **Projects** (`projects.dfy`, module `Projects`). The category filter over
  the project catalogue, the category icon, the first-three-features cut, and
  the conditional live-demo link and "In Progress" badge.
- **Header** (`header.dfy`, module `Header`). The `Header` component is
  modelled as written, although `src/App.jsx` renders the separate `Navbar`
  component and does not mount it. These parts of the header:
  - the initial dark/light decision from the saved theme and the system
    preference;
  - the theme toggle, which writes local storage and the document attribute;
  - the "scrolled" flag;
  - navigation that scrolls to a `/#id` section and closes the mobile menu;
  - the mobile-menu toggle.

`common.dfy` holds the pieces of JavaScript string behaviour these rely on:
- the white-space set of `trim()` and `\s`;
- `trim`;
- the argument clamping of `substring`;
- `startsWith`;
- `length` in UTF-16 code units, where a character outside the Basic
  Multilingual Plane counts twice;
- the truthiness of a string that may be `null`.

Strings are sequences of Unicode scalar values. The contact form's length
rule counts UTF-16 code units, as JavaScript does. The typewriter and the
header index strings by character.

Each stateful component is a class whose methods update its fields. Each
method states its new state through a pure function or through its own
postconditions, and the properties are lemmas about those functions:
- The contact form's validator is the pure function `FormErrors`.
- The typewriter's step is the pure function `Step`.
- The header's theme transitions are the pure functions `Mounted` and `Toggled`.

The browser is abstracted:
- local storage is a `map<string, string>`;
- the `data-theme` attribute is an `Option<string>`;
- the elements on the page are a set of ids;
- the system colour-scheme preference (`matchMedia`) is a boolean parameter;
- the scroll offset is an integer parameter;
- scrolling an element into view is the id that `ScrollToSection` returns.

Timers are not clocks. Each timeout that is started and has not fired yet is
recorded in the state, and its firing is a method call. For example, the
contact form counts its pending send and success-message timers, and the
typewriter records its pending pause. A method for a timer's firing requires
that the timer is pending.

`src/components/Contact.jsx` makes no network call. The send is simulated
by a 2000 ms timer, and the success message is hidden 5000 ms later.

## Model

| member | source | states |
|---|---|---|
| JsString.TrimCutsOnlyEdgeWhiteSpace | src/components/Contact.jsx:54 | `trim()` returns a contiguous piece of its input, with only white space cut before and after it |
| JsString.TrimEmptyIffBlank | src/components/Contact.jsx:54 | `s.trim()` is empty exactly when every character of `s` is JavaScript white space |
| JsString.Utf16Length | src/components/Contact.jsx:70 | `length` counts between one and two code units per character |
| JsString.Substring | src/components/Hero.jsx:25-31 | `substring(start, end)` is the slice between the arguments when both are in range, whichever order they come in. It runs to the end when `end` is past it, and is empty when both arguments are at or before the start, or both at or past the end |
| JsString.SubstringFrom | src/components/Header.jsx:44 | `substring(k)` is the suffix from `k` when `k` is in range, and empty past the end |
| JsString.StartsWith | src/components/Header.jsx:43 | `startsWith(prefix)` holds iff `prefix` fits and agrees with `s` character by character. Then `s` is `prefix` followed by the rest |
| Contact.FormData.With | src/components/Contact.jsx:102 | `{ ...prev, [f]: v }` sets field `f` to `v` and keeps the other three |
| Contact.EmailShaped | src/components/Contact.jsx:60 | a string the positional email test accepts has at least five characters, among them an `@` and a `.` |
| Contact.FieldError | src/components/Contact.jsx:54-72 | a field fails iff it is blank after `trim()`, or it is the email and fails the pattern, or it is the message and is under 10 code units. A recorded message is never empty |
| Contact.FormErrors | src/components/Contact.jsx:51-74 | the error object has a key for a field exactly when that field fails, holding that field's message |
| Contact.EmailShapedIffPattern | src/components/Contact.jsx:60 | the positional test (an `@` after a non-space character, a `.` at least two places later with only non-space characters between, and a non-space character after it) accepts exactly the strings in which some substring matches `\S+@\S+\.\S+` |
| Contact.NameRule | src/components/Contact.jsx:54-56 | a name error exists iff the name is blank after trimming, and it is "Name is required" |
| Contact.EmailRule | src/components/Contact.jsx:58-62 | blank email: "Email is required"; non-blank and not matching the pattern: "Email is invalid"; matching: no error. "Required" takes precedence, so the two never both apply |
| Contact.SubjectRule | src/components/Contact.jsx:64-66 | a subject error exists iff the subject is blank after trimming, and it is "Subject is required" |
| Contact.MessageRule | src/components/Contact.jsx:68-72 | blank message: "Message is required"; non-blank but under 10 UTF-16 code units, counted untrimmed: the length message; otherwise no error |
| Contact.PaddingSatisfiesLength | src/components/Contact.jsx:68-72 | a non-blank message padded with white space to 10 characters passes, because the length rule counts untrimmed characters |
| Contact.AtMostFourErrors | src/components/Contact.jsx:51-74 | the error keys are among the four fields, so there are at most four |
| Contact.ErrorsAreIndependent | src/components/Contact.jsx:51-74 | validation is not fail-fast: a field's error depends on that field's value alone |
| Contact.EmptyFormReportsEveryField | src/components/Contact.jsx:12-17 | the initial empty form reports all four "required" errors together |
| Contact.NotAnEmailIsInvalid | src/components/Contact.jsx:58-62 | the address "not-an-email" gets "Email is invalid" |
| Contact.NineCharacterMessageIsTooShort | src/components/Contact.jsx:70-71 | a non-blank message of nine code units gets the length error |
| Contact.FiveEmojiMessageIsLongEnough | src/components/Contact.jsx:70 | five emoji outside the Basic Multilingual Plane are ten code units, so that message passes the length rule |
| Contact.ValidExampleHasNoErrors | src/components/Contact.jsx:51-75 | a form with four acceptable values yields an empty error object |
| Contact.WithOnlyTouchesItsField | src/components/Contact.jsx:102 | editing one field leaves the others alone: edits to different fields commute, the last edit to a field wins, and rewriting a value is a no-op |
| Contact.ContactForm.constructor | src/components/Contact.jsx:12-21 | the form starts empty, with no errors, not submitting and not submitted |
| Contact.ContactForm.ValidateForm | src/components/Contact.jsx:51-76 | builds the error object field by field, stores exactly `FormErrors(formData)`, and returns true iff it is empty |
| Contact.ContactForm.HandleSubmit | src/components/Contact.jsx:78-85 | stores the errors. An invalid form changes nothing else: it does not set `isSubmitting`, start a timer or touch the fields. A valid form sets `isSubmitting` and starts the send timer |
| Contact.ContactForm.CompleteSubmission | src/components/Contact.jsx:88-97 | the send timer clears `isSubmitting`, sets `isSubmitted`, empties all four fields and starts the reset timer, keeping the invariant |
| Contact.ContactForm.ResetSuccessMessage | src/components/Contact.jsx:94-96 | the reset timer clears `isSubmitted` and changes nothing else |
| Contact.ContactForm.HandleChange | src/components/Contact.jsx:100-108 | only the named field changes. Its error is blanked only when one is shown. Other errors and the flags are unchanged |
| Hero.Step | src/components/Hero.jsx:21-36 | one event keeps the index in range and moves it by at most one role, modulo the number of roles. From a prefix of the role, the text stays a prefix of the (possibly next) role and changes by at most one character |
| Hero.StepKeepsInv | src/components/Hero.jsx:21-36 | every event keeps the index in range and the text a prefix of the current role, and a pending pause implies the full role, not deleting |
| Hero.TypingTick | src/components/Hero.jsx:31-34 | a typing tick appends exactly the next character of the role. At the full role the text stays the same (`substring` clamps) and the pause starts |
| Hero.DeletingTick | src/components/Hero.jsx:25-29 | a deleting tick removes exactly the last character. At the empty text it keeps `''`, stops deleting and advances the index modulo the number of roles |
| Hero.IndexMovesOnlyOnWrap | src/components/Hero.jsx:26-28 | the index changes only on a deleting tick that finds the text empty, and then becomes `(index + 1) % length` |
| Hero.DeletionOnlyAfterFullRole | src/components/Hero.jsx:32-34 | deleting starts only when the pause fires, and only while the full role is shown |
| Hero.RunKeepsInv | src/components/Hero.jsx:16-40 | no sequence of events breaks the invariant |
| Hero.TypeOut | src/components/Hero.jsx:31 | `k` typing ticks grow a prefix of length `j` to the prefix of length `j + k` |
| Hero.DeleteOut | src/components/Hero.jsx:25 | `k` deleting ticks shrink a prefix of length `j` to the prefix of length `j - k` |
| Hero.FirstRoleTyped | src/components/Hero.jsx:6-31 | from the initial state `(0, '', false)`, `len(texts[0])` ticks display `texts[0]` verbatim |
| Hero.WebDeveloperTypedFirst | src/components/Hero.jsx:10-14 | for this site, 13 ticks after mounting the display reads "Web Developer" |
| Hero.OneCycle | src/components/Hero.jsx:21-36 | a type-pause-delete cycle on role `i` shows role `i` in full and ends on the next role, with empty text, typing |
| Hero.AdvanceWithinRound | src/components/Hero.jsx:28 | repeated `(index + 1) % n`, done `k <= n` times, is addition that wraps at most once |
| Hero.ManyCycles | src/components/Hero.jsx:28 | `k` cycles from role `i` end on the role `k` steps further on, empty and typing |
| Hero.FullRotation | src/components/Hero.jsx:28 | after as many cycles as there are roles, the index is back where it started |
| Hero.RolesAreSingleCodeUnits | src/components/Hero.jsx:10-14 | every role title of the site is as many UTF-16 code units as characters, so character counting agrees with `length` and `substring` on them |
| Hero.TypewriterEffect.constructor | src/components/Hero.jsx:6-14 | starts on role 0 with empty text, typing, over the three role titles |
| Hero.TypewriterEffect.TypeText | src/components/Hero.jsx:21-36 | the `typeText` callback updates the fields exactly as `Step(..., Tick)` and keeps the invariant |
| Hero.TypewriterEffect.PauseElapsed | src/components/Hero.jsx:33 | the pause callback switches to deleting, as `Step(..., PauseElapsed)`, and keeps the invariant |
| Projects.FilterByCategory | src/components/Projects.jsx:99 | `filter` keeps only listed projects of the category and never lengthens the list |
| Projects.FilteredProjects | src/components/Projects.jsx:97-99 | 'all' gives the list unchanged. Any other filter gives listed projects of that category only |
| Projects.AllShowsEverything | src/components/Projects.jsx:97-98 | the 'all' filter returns the project list unchanged |
| Projects.FilterKeepsExactlyTheCategory | src/components/Projects.jsx:99 | any other filter returns every project of that category, as often as it occurs, and nothing else |
| Projects.FilteredMembership | src/components/Projects.jsx:97-99 | for a filter other than 'all', a project is shown iff it is in the list and has that category |
| Projects.FilterIsSubsequence | src/components/Projects.jsx:99 | filtering keeps the catalogue order: the result is a subsequence of the list |
| Projects.DesignFilterIsEmpty | src/components/Projects.jsx:22-99 | the 'design' filter matches none of this site's projects and yields an empty list, not an error |
| Projects.CategoryIcon | src/components/Projects.jsx:101-109 | total: 'mobile' gets Database and 'design' gets Palette, and an unknown category gets the default Code |
| Projects.ShownFeatures | src/components/Projects.jsx:235 | at most three features are shown: the first three in order, or all of them when there are fewer |
| Projects.RenderCard | src/components/Projects.jsx:173-270 | the live-demo link is present iff `liveUrl` is truthy, and it links to `liveUrl`; the "In Progress" badge is present iff status is 'in-progress'; the icon is `getCategoryIcon` of the category |
| Projects.RenderGrid | src/components/Projects.jsx:158-159 | the grid has one card per filtered project, in filtered order |
| Projects.CatalogueCards | src/components/Projects.jsx:22-95 | of this site's projects, only the banking app lacks a live demo and carries the badge |
| Header.ThemeName | src/components/Header.jsx:38-39 | the mode is written as 'dark' or 'light', and 'dark' exactly for dark mode |
| Header.GetItem | src/components/Header.jsx:21 | `getItem` returns the stored value, or null for an absent key |
| Header.InitialDarkMode | src/components/Header.jsx:21-25 | a saved 'dark' gives dark; a saved 'light' or any other non-empty value gives light whatever the system prefers; nothing saved (or '') follows the system preference |
| Header.SectionId | src/components/Header.jsx:43-44 | an id is extracted iff the href starts with '/#', and '/#' + id gives the href back |
| Header.SectionIdRoundTrip | src/components/Header.jsx:43-44 | every id is recovered from the href '/#' + id |
| Header.NavItemsAreSectionLinks | src/components/Header.jsx:11-18 | every item of Header's `navItems` is a '/#' link, so every item renders as a scroll button |
| Header.Mounted | src/components/Header.jsx:20-25 | the mount effect sets dark mode and `data-theme='dark'` exactly when the initial decision says dark; otherwise nothing changes, and storage is never written |
| Header.Toggled | src/components/Header.jsx:35-40 | the toggle negates the mode, writes its name to both `data-theme` and storage key 'theme', and leaves other keys alone |
| Header.ToggleTwice | src/components/Header.jsx:35-40 | two toggles restore the mode and leave the attribute and storage consistent with it. From a consistent theme, they give back exactly the original |
| Header.ToggleSurvivesReload | src/components/Header.jsx:20-40 | after a toggle, a freshly mounted header reading the same storage shows the toggled mode, whatever the system prefers |
| Header.HeaderBar.constructor | src/components/Header.jsx:7-9 | light mode, menu closed, not scrolled, over the browser's existing storage and attribute |
| Header.HeaderBar.Mount | src/components/Header.jsx:20-25 | the mount effect updates the theme fields exactly as `Mounted` |
| Header.HeaderBar.OnScroll | src/components/Header.jsx:27-29 | `isScrolled` becomes true iff the offset is above 50 |
| Header.HeaderBar.ToggleDarkMode | src/components/Header.jsx:35-40 | updates the theme fields exactly as `Toggled`; the menu and scroll flags are unchanged |
| Header.HeaderBar.ScrollToSection | src/components/Header.jsx:42-51 | scrolls to the id `href[2..]` exactly for a '/#' href whose id is non-empty and names an element. `getElementById('')` finds nothing. Always closes the mobile menu |
| Header.HeaderBar.ToggleMobileMenu | src/components/Header.jsx:107 | the menu button flips `isMobileMenuOpen` |

## Left out

- Animation, styling and layout are left out: framer-motion properties, the
  intersection observer, CSS classes and the Tailwind configuration. They
  carry no logic.
- Timing constants are left out: 100 ms and 50 ms ticks, the 2000 ms pause,
  and the 2000 ms and 5000 ms submit delays. Timer firings are events rather
  than points in time.
- Timer cancellation is left out. The typewriter's effect clears its tick
  timeout on re-render, but the model never has two tick timeouts pending.
- Hero.Step: a `Tick` while the pause is pending, or a `PauseElapsed` with no
  pause pending, leaves the state unchanged. Neither event can occur in the
  component, and the class methods require the matching timer to be pending.
- Hero: the empty role list is not modelled. The site has three roles, and
  with none the JavaScript code indexes past an empty array. The class's
  invariant requires at least one role.
- Contact.ContactForm.HandleSubmit: requires `!isSubmitting`. The submit
  button is disabled while a send is in flight (src/components/Contact.jsx:312),
  so the form cannot be submitted twice at once.
- The Contact form's social links and contact details are static content
  and are left out.
- Projects: a project's description, image and technology list are left out.
  They are rendered verbatim.
- Projects: the filter buttons only set `activeFilter`. That value is a
  parameter of the model.
- Header: `scrollY` is a browser number that may be fractional. The model
  takes an integer offset.
- Header: `scrollIntoView`, `getElementById`, `setAttribute`, `matchMedia` and
  `localStorage` are not modelled as browser behaviour. They are the
  abstractions named above.
- Header: navigation through router links is left out. It is never taken,
  because every item of Header's `navItems` is a '/#' link.
- Hero: a role containing a character outside the Basic Multilingual Plane is
  not modelled faithfully. `length` and `substring` count UTF-16 code units,
  so in JavaScript such a character takes two ticks and one tick shows half a
  surrogate pair; here it takes one tick. The site's roles lie inside the
  plane (`Hero.RolesAreSingleCodeUnits`).
- Other components are not modelled:
  - `ParticleBackground.jsx`: floating point, randomness and canvas drawing.
  - `Resume.jsx`, `Skills.jsx`, `About.jsx`, `Achievements.jsx`, `data.js`
    and `App.jsx`: static content and composition.
  - `Footer.jsx`: its scroll helper repeats the Header's `/#` handling
    without the menu flag.
  - `Navbar.jsx`: a menu flag around a theme provider that is not part of
    this model.
