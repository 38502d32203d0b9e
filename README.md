# Registration form: validators and submit gating

A model of the logic inside the JavaFX registration form of
`RegistrationForm.java`. The form has five text fields: first name, last
name, e-mail, date of birth and zip code. Each field's text is checked
against one of four fixed regular expressions. The Add button stays disabled
until all five texts are valid. When a field loses focus, its border turns
green or red. Clicking Add replaces the form with a screen that greets the
first name.

The model has two modules:

- `Patterns` (`patterns.dfy`) is pure. It holds the four patterns
  (`NAME_PATTERN`, `DOB_PATTERN`, `EMAIL_PATTERN`, `ZIP_CODE_PATTERN`), each
  written as a direct matcher over the characters of a string that follows
  the shape of its regular expression. `String.matches` must match the whole
  input, so every matcher is anchored at both ends. Each matcher is proved
  equal to an independent description of what it accepts:
  - a length bound plus a per-character class, for names and zip codes;
  - numeric month, day and year ranges, for the date of birth;
  - an explicit split `local + "@farmingdale" + [c] + "edu"`, for the e-mail.
- `Form` (`form.dfy`) is the controller. The class `RegistrationForm` holds:
  - the five texts;
  - the five validity flags, which the class invariant ties to the texts;
  - the Add button's disabled flag;
  - the five border styles;
  - the screen on show.

  Each toolkit event is one method: a text edit, a change of focus, a click
  on Add. Pure functions beside the class describe the effect of each event,
  and lemmas about those functions state the form's properties.

Notes on the source's behaviour that the model keeps as written:

- The `.` in `EMAIL_PATTERN` is not escaped, so it is the regex wildcard.
  `a@farmingdaleXedu` is accepted (`EmailWildcardAccepted`). In
  java.util.regex the wildcard does not match a line terminator (`\n`, `\r`,
  U+0085, U+2028, U+2029) unless DOTALL is set. So the model accepts any
  character there except those five, not literally any character.
- The date of birth check is syntactic only: `02/30/2024` is accepted.
- A border is painted only on focus loss. Editing the text afterwards leaves
  the old color in place until the next focus loss.
- A disabled JavaFX button delivers no action. `OnAddClicked` therefore
  returns `None` and changes nothing while the button is disabled. The
  greeting uses the first name and no other field.
- `\d` is read as ASCII `0-9`, which is java.util.regex's default.

Strings are `seq<char>`, and a Dafny `char` is a Unicode scalar value. The
Java regex also steps over whole code points, as a Dafny `char` does, so the
patterns accept the same texts. Java's `length()` differs, however: it counts
a supplementary character (one emoji in the e-mail wildcard position, say)
as two UTF-16 units, where the model counts one `char`.

## Model

| member | source | states |
|---|---|---|
| Patterns.MatchRepeat | src/main/java/com/github/matthewdesouza/registrationdemo/RegistrationForm.java:25 | the anchored bounded repetition `k{lo,hi}` used by the name, zip and final-digits patterns; its meaning is stated by `Patterns.MatchRepeatIff` |
| Patterns.IsNameValid | src/main/java/com/github/matthewdesouza/registrationdemo/RegistrationForm.java:54 | `isNameValid`, the name pattern applied with `matches`; its meaning is stated by `Patterns.NameValidIff` |
| Patterns.IsDobValid | src/main/java/com/github/matthewdesouza/registrationdemo/RegistrationForm.java:55 | `isDobValid`, the date pattern applied with `matches`; its meaning is stated by `Patterns.DobValidIff` |
| Patterns.MatchDomain | src/main/java/com/github/matthewdesouza/registrationdemo/RegistrationForm.java:27 | the literal `@farmingdale`, one wildcard character and `edu`; its meaning is stated through `Patterns.EmailValidIff` |
| Patterns.MatchLocalThenDomain | src/main/java/com/github/matthewdesouza/registrationdemo/RegistrationForm.java:27 | the starred local part followed by the domain; its meaning is stated by `Patterns.MatchLocalThenDomainIff` |
| Patterns.IsEmailValid | src/main/java/com/github/matthewdesouza/registrationdemo/RegistrationForm.java:56 | `isEmailValid`, the e-mail pattern applied with `matches`; its meaning is stated by `Patterns.EmailValidIff` |
| Patterns.IsZipValid | src/main/java/com/github/matthewdesouza/registrationdemo/RegistrationForm.java:57 | `isZipValid`, the zip pattern applied with `matches`; its meaning is stated by `Patterns.ZipValidIff` |
| Patterns.Matches | src/main/java/com/github/matthewdesouza/registrationdemo/RegistrationForm.java:54-57 | `String.matches` with one of the four patterns, as the predicates and the focus listener (line 111) call it; stated through `Patterns.EmptyRejected`, `Patterns.TrailingLineBreakRejected` and `Form.ListenerAgreesWithBinding` |
| Patterns.MatchRepeatIff | src/main/java/com/github/matthewdesouza/registrationdemo/RegistrationForm.java:25 | the anchored repetition `k{lo,hi}` matches exactly the strings whose length is within `lo..hi` and whose every character is in class `k` (also used for `\d{5}` and the final `\d\d`) |
| Patterns.NameValidIff | src/main/java/com/github/matthewdesouza/registrationdemo/RegistrationForm.java:25 | a name is valid iff it has 2 to 25 characters, all ASCII letters `A-Z`/`a-z` |
| Patterns.ZipValidIff | src/main/java/com/github/matthewdesouza/registrationdemo/RegistrationForm.java:28 | a zip code is valid iff it has exactly 5 characters, all ASCII digits |
| Patterns.DobValidIff | src/main/java/com/github/matthewdesouza/registrationdemo/RegistrationForm.java:26 | the date pattern accepts exactly the 10-character strings with `/` at indices 2 and 5, digits elsewhere, month value 1..12, day value 1..31 and year value 1900..2099 |
| Patterns.ImpossibleDateAccepted | src/main/java/com/github/matthewdesouza/registrationdemo/RegistrationForm.java:26 | `02/30/2024` is accepted (no calendar check); month 13, day 32 and year 2100 are rejected |
| Patterns.MatchLocalThenDomainIff | src/main/java/com/github/matthewdesouza/registrationdemo/RegistrationForm.java:27 | the greedy scan of `[a-zA-Z0-9._%+-]*` followed by the domain accepts exactly the strings whose last 16 characters are the domain and whose earlier characters are all local-part characters, so skipping backtracking loses no match |
| Patterns.EmailValidIff | src/main/java/com/github/matthewdesouza/registrationdemo/RegistrationForm.java:27 | an e-mail is valid iff it is `local + "@farmingdale" + [c] + "edu"` with `local` non-empty over `[a-zA-Z0-9._%+-]` and `c` any character except a line terminator |
| Patterns.EmailWildcardAccepted | src/main/java/com/github/matthewdesouza/registrationdemo/RegistrationForm.java:27 | `a.b+c@farmingdale.edu` and `a@farmingdaleXedu` are both accepted |
| Patterns.EmailOthersRejected | src/main/java/com/github/matthewdesouza/registrationdemo/RegistrationForm.java:27 | another domain, an empty local part and a line break in the wildcard position are rejected |
| Patterns.EmptyRejected | src/main/java/com/github/matthewdesouza/registrationdemo/RegistrationForm.java:25-28 | no pattern matches the empty string |
| Patterns.TrailingLineBreakRejected | src/main/java/com/github/matthewdesouza/registrationdemo/RegistrationForm.java:54-57 | `matches` is a whole-string match: no text ending in `\n` matches any of the four patterns |
| Form.BindingValid | src/main/java/com/github/matthewdesouza/registrationdemo/RegistrationForm.java:60-64 | the predicate each field's validity binding tests; stated through `Form.ValidityFlags` and `Form.ListenerAgreesWithBinding` |
| Form.ListenerPattern | src/main/java/com/github/matthewdesouza/registrationdemo/RegistrationForm.java:70-74 | the pattern each field's focus listener is registered with; stated through `Form.ListenerAgreesWithBinding` |
| Form.ListenerAgreesWithBinding | src/main/java/com/github/matthewdesouza/registrationdemo/RegistrationForm.java:70-74 | the pattern each focus listener is registered with gives the same verdict as that field's validity binding, for every text |
| Form.ValidityFlags | src/main/java/com/github/matthewdesouza/registrationdemo/RegistrationForm.java:60-64 | each of the five flags is its field's validator applied to that field's text, with the name validator used for both names |
| Form.ValidityFlagsAfterEdit | src/main/java/com/github/matthewdesouza/registrationdemo/RegistrationForm.java:60-64 | editing one field changes only that field's flag, to the validator's verdict on the new text |
| Form.AddDisabled | src/main/java/com/github/matthewdesouza/registrationdemo/RegistrationForm.java:67 | the button is not disabled exactly when every flag is true |
| Form.AddEnabledIff | src/main/java/com/github/matthewdesouza/registrationdemo/RegistrationForm.java:60-67 | the button is enabled iff all five current texts satisfy their validators, stated both per validator and as every field matching its listener's pattern |
| Form.BlankFormDisabled | src/main/java/com/github/matthewdesouza/registrationdemo/RegistrationForm.java:67 | with five empty fields the button is disabled |
| Form.FilledFormScenario | src/main/java/com/github/matthewdesouza/registrationdemo/RegistrationForm.java:60-67 | `Al`, `Li`, `x@farmingdale.edu`, `01/15/2000`, `11735` enable the button; the same entries with zip `1173` disable it |
| Form.StyleText | src/main/java/com/github/matthewdesouza/registrationdemo/RegistrationForm.java:112 | the style text is empty exactly for a field with no border |
| Form.StyleTextInjective | src/main/java/com/github/matthewdesouza/registrationdemo/RegistrationForm.java:112 | the three borders give three different style texts, so a valid and an invalid field are painted differently |
| Form.AfterFocusChange | src/main/java/com/github/matthewdesouza/registrationdemo/RegistrationForm.java:108-114 | the focus listener's effect on the styles; its meaning is stated by `Form.FocusLostStyle`, `Form.FocusLostIdempotent` and `Form.NoBorderUntilFocusLost` |
| Form.FocusLostStyle | src/main/java/com/github/matthewdesouza/registrationdemo/RegistrationForm.java:108-114 | on focus loss the field's style becomes green iff its current text is valid and red iff it is not; every other field's style is unchanged |
| Form.FocusLostIdempotent | src/main/java/com/github/matthewdesouza/registrationdemo/RegistrationForm.java:110-112 | losing focus twice with unchanged text yields the same styles as losing it once |
| Form.NoBorderUntilFocusLost | src/main/java/com/github/matthewdesouza/registrationdemo/RegistrationForm.java:108-114 | after a focus change a field has no border iff it had none before and was not the field that lost focus; a focus gain leaves every style as it was |
| Form.AllGreenIffEnabled | src/main/java/com/github/matthewdesouza/registrationdemo/RegistrationForm.java:60-74 | whenever every border shows its listener's verdict on the field's current text, in whatever order the focus losses came, all borders are green iff the Add button is enabled |
| Form.FocusLostEverywherePaints | src/main/java/com/github/matthewdesouza/registrationdemo/RegistrationForm.java:108-114 | five focus losses, one per field, with no edit in between, leave every border showing its verdict on the current text |
| Form.WelcomeMessage | src/main/java/com/github/matthewdesouza/registrationdemo/RegistrationForm.java:91 | the greeting is `"Welcome to the new UI "`, then the first name, then `!` |
| Form.WelcomeMessageInjective | src/main/java/com/github/matthewdesouza/registrationdemo/RegistrationForm.java:91 | different first names give different greetings |
| Form.RegistrationForm.constructor | src/main/java/com/github/matthewdesouza/registrationdemo/RegistrationForm.java:37-67 | the form starts with empty texts and no borders, on the registration screen, with Add disabled and the flags consistent with the texts |
| Form.RegistrationForm.OnTextChanged | src/main/java/com/github/matthewdesouza/registrationdemo/RegistrationForm.java:60-67 | after an edit only that field's text has changed; the flags and the disabled flag are up to date at once (disabled iff some field is invalid); styles and screen are unchanged |
| Form.RegistrationForm.OnFocusChanged | src/main/java/com/github/matthewdesouza/registrationdemo/RegistrationForm.java:109-113 | the new styles are those of the focus-change function: unchanged on focus gain, the field painted from its pattern on focus loss; texts and flags are unchanged |
| Form.RegistrationForm.OnAddClicked | src/main/java/com/github/matthewdesouza/registrationdemo/RegistrationForm.java:87-94 | while disabled, a click yields nothing and changes nothing; otherwise it shows the welcome screen with the greeting built from the first name, and returns that greeting |

## Left out

- Widget construction, prompt texts and grid layout (lines 37-47 and 77-84). Stage scenes, sizes and titles (lines 92-93 and 97-99). These are toolkit plumbing. `OnAddClicked` records only which screen is shown and what it says.
- The JavaFX binding machinery (`createBooleanBinding`, `disableProperty().bind`). `OnTextChanged` recomputes the bindings instead. As in JavaFX, the value read after an edit is never stale.
- The focus listener's registration (`focusedProperty().addListener`). The toolkit calls `OnFocusChanged` with the new value of the focused flag.
- The console trace on submit (line 89) and the `main`/`launch` bootstrap (lines 121-123). Both are I/O and process start-up.
- A general regular-expression engine. Only the four fixed patterns are modelled, each as its own matcher.
- Java strings are UTF-16 and can hold unpaired surrogates. A Dafny string cannot, so such strings are outside the model. The only such text Java would accept is an e-mail with a lone surrogate in the wildcard position.
- After the welcome screen is shown, the form object is not discarded. Later events act on a form that is no longer on screen.
