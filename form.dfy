/** The registration form's controller: five text fields, the validity
    flags bound to their texts, the Add button's disabled flag, the border
    style each field's focus listener sets, and the screen shown once Add
    fires. Widget construction and layout are not modelled; each event the
    toolkit delivers (a text edit, a focus change, a click) is one method. */
module Form {
  import opened Patterns

  datatype Option<T> = None | Some(value: T)

  /** The five text fields, in the order they are laid out. */
  datatype Field = FirstName | LastName | Email | DateOfBirth | ZipCode

  /** One value per field. */
  datatype PerField<T> = PerField(firstName: T, lastName: T, email: T, dateOfBirth: T, zipCode: T)
  {
    function Get(f: Field): T {
      match f
      case FirstName => firstName
      case LastName => lastName
      case Email => email
      case DateOfBirth => dateOfBirth
      case ZipCode => zipCode
    }

    function Set(f: Field, v: T): (r: PerField<T>)
      ensures r.Get(f) == v
      ensures forall g :: g != f ==> r.Get(g) == Get(g)
    {
      match f
      case FirstName => this.(firstName := v)
      case LastName => this.(lastName := v)
      case Email => this.(email := v)
      case DateOfBirth => this.(dateOfBirth := v)
      case ZipCode => this.(zipCode := v)
    }
  }

  /** A text field starts with the empty text. */
  const BlankTexts: PerField<string> := PerField("", "", "", "", "")

  /** The predicate each field's validity binding applies to its text. */
  function BindingValid(f: Field, text: string): bool {
    match f
    case FirstName => IsNameValid(text)
    case LastName => IsNameValid(text)
    case Email => IsEmailValid(text)
    case DateOfBirth => IsDobValid(text)
    case ZipCode => IsZipValid(text)
  }

  /** The pattern each field's focus listener is registered with. */
  function ListenerPattern(f: Field): Pattern {
    match f
    case FirstName => NamePattern
    case LastName => NamePattern
    case Email => EmailPattern
    case DateOfBirth => DobPattern
    case ZipCode => ZipPattern
  }

  /** The border a listener paints and the button a binding enables agree:
      both apply the same pattern to the same field. */
  lemma ListenerAgreesWithBinding(f: Field, text: string)
    ensures Matches(text, ListenerPattern(f)) == BindingValid(f, text)
  {
  }

  /** The five validity bindings, evaluated on the current texts. */
  function ValidityFlags(texts: PerField<string>): (r: PerField<bool>)
    ensures forall f :: r.Get(f) == BindingValid(f, texts.Get(f))
  {
    PerField(IsNameValid(texts.firstName), IsNameValid(texts.lastName), IsEmailValid(texts.email),
             IsDobValid(texts.dateOfBirth), IsZipValid(texts.zipCode))
  }

  /** Editing one field re-evaluates only that field's binding. */
  lemma ValidityFlagsAfterEdit(texts: PerField<string>, f: Field, text: string)
    ensures ValidityFlags(texts.Set(f, text)) == ValidityFlags(texts).Set(f, BindingValid(f, text))
  {
  }

  /** The Add button's disabled rule: the OR of the negated flags, taken in
      the order first name, last name, e-mail, date of birth, zip code. */
  function AddDisabled(flags: PerField<bool>): (r: bool)
    ensures !r <==> forall f :: flags.Get(f)
  {
    assert flags.Get(FirstName) == flags.firstName && flags.Get(LastName) == flags.lastName;
    assert flags.Get(Email) == flags.email && flags.Get(DateOfBirth) == flags.dateOfBirth;
    assert flags.Get(ZipCode) == flags.zipCode;
    !flags.firstName || !flags.lastName || !flags.email || !flags.dateOfBirth || !flags.zipCode
  }

  /** The button is enabled exactly when the five current texts each match
      their own pattern, one pattern shared by both name fields. */
  lemma AddEnabledIff(texts: PerField<string>)
    ensures !AddDisabled(ValidityFlags(texts)) <==>
            IsNameValid(texts.firstName) && IsNameValid(texts.lastName) && IsEmailValid(texts.email) &&
            IsDobValid(texts.dateOfBirth) && IsZipValid(texts.zipCode)
    ensures !AddDisabled(ValidityFlags(texts)) <==> forall f :: Matches(texts.Get(f), ListenerPattern(f))
  {
  }

  /** A fresh form cannot be submitted: no pattern matches the empty text. */
  lemma BlankFormDisabled()
    ensures AddDisabled(ValidityFlags(BlankTexts))
  {
  }

  /** Five valid entries enable the button; shortening the zip code to four
      digits disables it again, with no focus event in between. */
  lemma FilledFormScenario()
    ensures !AddDisabled(ValidityFlags(PerField("Al", "Li", "x@farmingdale.edu", "01/15/2000", "11735")))
    ensures AddDisabled(ValidityFlags(PerField("Al", "Li", "x@farmingdale.edu", "01/15/2000", "1173")))
  {
  }

  // ---------------------------------------------------------------------
  // Border styles

  /** A field's border: none until its first focus loss, then green or red. */
  datatype Style = NoBorder | GreenBorder | RedBorder

  /** The style text handed to the toolkit; a field's initial style is empty. */
  function StyleText(st: Style): (r: string)
    ensures (r == "") <==> st == NoBorder
  {
    match st
    case NoBorder => ""
    case GreenBorder => "-fx-border-color: green;"
    case RedBorder => "-fx-border-color: red;"
  }

  /** The three borders hand the toolkit three different style texts, so a
      valid and an invalid field are painted differently. */
  lemma StyleTextInjective(a: Style, b: Style)
    ensures StyleText(a) == StyleText(b) ==> a == b
  {
  }

  /** What a field's focus listener does when the focused flag changes to
      `focused`: on focus loss the field's style follows its listener
      pattern; on focus gain nothing changes. */
  function AfterFocusChange(styles: PerField<Style>, texts: PerField<string>, f: Field, focused: bool): PerField<Style> {
    if focused then styles
    else styles.Set(f, if Matches(texts.Get(f), ListenerPattern(f)) then GreenBorder else RedBorder)
  }

  /** On focus loss the field becomes green exactly when its current text is
      valid and red otherwise; no other field's style changes. */
  lemma FocusLostStyle(styles: PerField<Style>, texts: PerField<string>, f: Field)
    ensures AfterFocusChange(styles, texts, f, false).Get(f) == GreenBorder <==> BindingValid(f, texts.Get(f))
    ensures AfterFocusChange(styles, texts, f, false).Get(f) == RedBorder <==> !BindingValid(f, texts.Get(f))
    ensures forall g :: g != f ==> AfterFocusChange(styles, texts, f, false).Get(g) == styles.Get(g)
  {
  }

  /** Losing focus twice with the same text paints the same border. */
  lemma FocusLostIdempotent(styles: PerField<Style>, texts: PerField<string>, f: Field)
    ensures AfterFocusChange(AfterFocusChange(styles, texts, f, false), texts, f, false) ==
            AfterFocusChange(styles, texts, f, false)
  {
  }

  /** A field that has not lost focus keeps no border, however its text
      changes: only a focus loss paints one, and never the empty border. */
  lemma NoBorderUntilFocusLost(styles: PerField<Style>, texts: PerField<string>, f: Field, g: Field, focused: bool)
    ensures AfterFocusChange(styles, texts, f, focused).Get(g) == NoBorder <==>
            styles.Get(g) == NoBorder && (focused || g != f)
    ensures focused ==> AfterFocusChange(styles, texts, f, focused) == styles
  {
  }

  /** Every border shows its listener's verdict on the field's current text. */
  predicate PaintedFromTexts(styles: PerField<Style>, texts: PerField<string>) {
    forall f :: styles.Get(f) == (if Matches(texts.Get(f), ListenerPattern(f)) then GreenBorder else RedBorder)
  }

  /** When every border shows its verdict on the current text, whatever order
      the focus losses came in, all five borders are green exactly when the
      Add button is enabled. An edit after a field's last focus loss can
      leave its border stale, and then this need not hold. */
  lemma AllGreenIffEnabled(styles: PerField<Style>, texts: PerField<string>)
    requires PaintedFromTexts(styles, texts)
    ensures (forall f :: styles.Get(f) == GreenBorder) <==> !AddDisabled(ValidityFlags(texts))
  {
  }

  /** Five focus losses, one per field, with no edit in between, paint every
      border from the current texts. */
  lemma FocusLostEverywherePaints(styles: PerField<Style>, texts: PerField<string>)
    ensures PaintedFromTexts(
              AfterFocusChange(AfterFocusChange(AfterFocusChange(AfterFocusChange(AfterFocusChange(
                styles, texts, FirstName, false), texts, LastName, false), texts, Email, false),
                texts, DateOfBirth, false), texts, ZipCode, false),
              texts)
  {
  }

  // ---------------------------------------------------------------------
  // Submission

  const WelcomePrefix: string := "Welcome to the new UI "

  /** The label of the screen shown after Add: built from the first name
      alone. */
  function WelcomeMessage(firstName: string): (r: string)
    ensures |r| == |WelcomePrefix| + |firstName| + 1
    ensures r[..|WelcomePrefix|] == WelcomePrefix
    ensures r[|WelcomePrefix|..|r| - 1] == firstName
    ensures r[|r| - 1] == '!'
  {
    WelcomePrefix + firstName + "!"
  }

  /** The welcome label determines the first name it was built from. */
  lemma WelcomeMessageInjective(a: string, b: string)
    ensures WelcomeMessage(a) == WelcomeMessage(b) ==> a == b
  {
  }

  datatype Screen = RegistrationScreen | WelcomeScreen(greeting: string)

  class RegistrationForm {
    var texts: PerField<string>
    var valid: PerField<bool>
    var addDisabled: bool
    var styles: PerField<Style>
    var screen: Screen

    /** The bindings are never stale: each flag is its field's pattern
        applied to the current text, and the button's flag is derived from
        the five flags. */
    ghost predicate Valid()
      reads this
    {
      valid == ValidityFlags(texts) && addDisabled == AddDisabled(valid)
    }

    /** The form as the application start builds it: empty fields, no
        borders, the registration screen shown, Add disabled. */
    constructor ()
      ensures Valid()
      ensures texts == BlankTexts
      ensures styles == PerField(NoBorder, NoBorder, NoBorder, NoBorder, NoBorder)
      ensures screen == RegistrationScreen
      ensures addDisabled
    {
      texts := BlankTexts;
      valid := ValidityFlags(BlankTexts);
      addDisabled := AddDisabled(ValidityFlags(BlankTexts));
      styles := PerField(NoBorder, NoBorder, NoBorder, NoBorder, NoBorder);
      screen := RegistrationScreen;
      BlankFormDisabled();
    }

    /** The user edits field `f` so that it now reads `text`: the field's
        binding and the button's flag are brought up to date at once; no
        border changes until the field loses focus. */
    method OnTextChanged(f: Field, text: string)
      requires Valid()
      modifies this
      ensures Valid()
      ensures texts == old(texts).Set(f, text)
      ensures styles == old(styles) && screen == old(screen)
      ensures !addDisabled <==> forall g :: BindingValid(g, texts.Get(g))
    {
      ValidityFlagsAfterEdit(texts, f, text);
      texts := texts.Set(f, text);
      valid := valid.Set(f, BindingValid(f, text));
      addDisabled := AddDisabled(valid);
    }

    /** Field `f`'s focused flag changes to `focused`. */
    method OnFocusChanged(f: Field, focused: bool)
      requires Valid()
      modifies this`styles
      ensures Valid()
      ensures styles == AfterFocusChange(old(styles), texts, f, focused)
    {
      if !focused {
        var isValid := Matches(texts.Get(f), ListenerPattern(f));
        styles := styles.Set(f, if isValid then GreenBorder else RedBorder);
      }
    }

    /** The user clicks Add. A disabled button delivers no action; an
        enabled one replaces the form by a screen greeting the first name,
        reading no other field. */
    method OnAddClicked() returns (shown: Option<string>)
      requires Valid()
      modifies this`screen
      ensures Valid()
      ensures old(addDisabled) ==> shown == None && screen == old(screen)
      ensures !old(addDisabled) ==> shown == Some(WelcomeMessage(texts.firstName)) &&
                                    screen == WelcomeScreen(WelcomeMessage(texts.firstName))
    {
      if addDisabled {
        shown := None;
      } else {
        var greeting := WelcomeMessage(texts.firstName);
        screen := WelcomeScreen(greeting);
        shown := Some(greeting);
      }
    }
  }

  /** A fresh form: Add does nothing, and losing focus on an empty field
      paints it red while the other fields keep no border. */
  method BlankFormSession()
  {
    var form := new RegistrationForm();
    var shown := form.OnAddClicked();
    assert shown == None;
    form.OnFocusChanged(FirstName, true);
    form.OnFocusChanged(FirstName, false);
    FocusLostStyle(PerField(NoBorder, NoBorder, NoBorder, NoBorder, NoBorder), BlankTexts, FirstName);
    assert form.styles.Get(FirstName) == RedBorder;
    assert form.styles.Get(LastName) == NoBorder;
  }

  /** Filling in the five fields enables Add with no focus event; a
      four-digit zip code disables it again; Add greets the first name. */
  method FilledFormSession()
  {
    var form := new RegistrationForm();
    form.OnTextChanged(FirstName, "Al");
    form.OnTextChanged(LastName, "Li");
    form.OnTextChanged(Email, "x@farmingdale.edu");
    form.OnTextChanged(DateOfBirth, "01/15/2000");
    form.OnTextChanged(ZipCode, "1173");
    assert form.texts == PerField("Al", "Li", "x@farmingdale.edu", "01/15/2000", "1173");
    FilledFormScenario();
    assert form.addDisabled;
    form.OnTextChanged(ZipCode, "11735");
    assert form.texts == PerField("Al", "Li", "x@farmingdale.edu", "01/15/2000", "11735");
    assert !form.addDisabled;
    assert form.styles == PerField(NoBorder, NoBorder, NoBorder, NoBorder, NoBorder);
    var shown := form.OnAddClicked();
    assert shown == Some(WelcomeMessage("Al"));
    assert form.screen == WelcomeScreen(WelcomeMessage("Al"));
  }
}
