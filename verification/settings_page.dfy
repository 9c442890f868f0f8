/**
  The settings page: it loads the credentials into its view-model, writes each
  edited value back to the store (with defaults for empty text and a clamp for
  the iteration count), and toggles whether the password and the salt are shown.
*/
module SettingsPage {
  import opened Wrappers
  import opened CSharpInt
  import opened CredentialStore

  const DefaultPassword: string := "My Password"
  const DefaultSalt: string := "My Salt"
  const DefaultIterations: int32 := 30000
  const MinIterations: int32 := 10000
  const MaxIterations: int32 := 100000

  // -------------------------------------------------------------------
  // Values written back to the store
  // -------------------------------------------------------------------

  /** The iteration count forced into [10000, 100000]. */
  function ClampIterations(n: int32): (r: int32)
    ensures MinIterations <= r <= MaxIterations
    ensures MinIterations <= n <= MaxIterations ==> r == n
  {
    if n < MinIterations then MinIterations
    else if n > MaxIterations then MaxIterations
    else n
  }

  /** Clamping twice is clamping once. */
  lemma ClampIdempotent(n: int32)
    ensures ClampIterations(ClampIterations(n)) == ClampIterations(n)
  {
  }

  /** The clamped value is the closest value of the range to the input. */
  lemma ClampIsNearest(n: int32, m: int32)
    requires MinIterations <= m <= MaxIterations
    ensures Abs(ClampIterations(n) - n) <= Abs(m - n)
  {
  }

  /** The edited text, or the default when it is null or empty. */
  function OrDefault(value: Option<string>, default: string): (r: string)
    requires default != ""
    ensures r != ""
    ensures !IsNullOrEmpty(value) ==> r == value.value
  {
    if IsNullOrEmpty(value) then default else value.value
  }

  /** Feeding the stored value back in stores it unchanged. */
  lemma OrDefaultIdempotent(value: Option<string>, default: string)
    requires default != ""
    ensures OrDefault(Some(OrDefault(value, default)), default) == OrDefault(value, default)
  {
  }

  // -------------------------------------------------------------------
  // Show/hide state of the password and salt inputs
  // -------------------------------------------------------------------

  datatype Icon = VisibilityIcon | VisibilityOffIcon
  datatype InputType = PasswordInput | TextInput

  /** One input's flag, icon and input type. */
  datatype FieldView = FieldView(show: bool, icon: Icon, inputType: InputType)

  /** The icon and the input type agree with the flag. */
  predicate Consistent(v: FieldView)
  {
    (v.show <==> v.inputType == TextInput) && (v.show <==> v.icon == VisibilityIcon)
  }

  const Hidden: FieldView := FieldView(false, VisibilityOffIcon, PasswordInput)

  /** A toggle flips the flag and brings the icon and the input type along. */
  function Toggled(v: FieldView): (r: FieldView)
    ensures r.show == !v.show
    ensures Consistent(r)
  {
    if v.show then FieldView(false, VisibilityOffIcon, PasswordInput)
    else FieldView(true, VisibilityIcon, TextInput)
  }

  /** Two toggles restore a consistent state. */
  lemma ToggleTwice(v: FieldView)
    requires Consistent(v)
    ensures Toggled(Toggled(v)) == v
  {
  }

  // -------------------------------------------------------------------
  // The page
  // -------------------------------------------------------------------

  class SettingsPageViewModel {
    var password: Option<string>
    var salt: Option<string>
    var iterations: int32

    constructor ()
      ensures password == None && salt == None && iterations == 0
    {
      password := None;
      salt := None;
      iterations := 0;
    }
  }

  class SettingsPage {
    const viewModel: SettingsPageViewModel
    const storage: SecureStorage
    var showPassword: bool
    var passwordInputType: InputType
    var passwordInputIcon: Icon
    var showSalt: bool
    var saltInputType: InputType
    var saltInputIcon: Icon

    function PasswordView(): FieldView
      reads this
    {
      FieldView(showPassword, passwordInputIcon, passwordInputType)
    }

    function SaltView(): FieldView
      reads this
    {
      FieldView(showSalt, saltInputIcon, saltInputType)
    }

    ghost predicate Valid()
      reads this
    {
      Consistent(PasswordView()) && Consistent(SaltView())
    }

    constructor (viewModel: SettingsPageViewModel, storage: SecureStorage)
      ensures this.viewModel == viewModel && this.storage == storage
      ensures Valid() && PasswordView() == Hidden && SaltView() == Hidden
    {
      this.viewModel := viewModel;
      this.storage := storage;
      showPassword := false;
      passwordInputType := PasswordInput;
      passwordInputIcon := VisibilityOffIcon;
      showSalt := false;
      saltInputType := PasswordInput;
      saltInputIcon := VisibilityOffIcon;
    }

    /**
      `OnInitializedAsync`: password and salt are copied as stored, null
      included; a missing iteration count becomes 30000, a stored one is parsed
      without any clamp. A parse failure escapes after password and salt are set.
    */
    method OnInitialized() returns (thrown: Option<ParseError>)
      modifies viewModel
      ensures viewModel.password == storage.Get(PasswordKey)
      ensures viewModel.salt == storage.Get(SaltKey)
      ensures storage.Get(IterationsKey).None? ==> thrown == None && viewModel.iterations == DefaultIterations
      ensures storage.Get(IterationsKey).Some? ==>
                match ParseInt(storage.Get(IterationsKey).value)
                case Success(n) => thrown == None && viewModel.iterations == n
                case Failure(e) => thrown == Some(e) && viewModel.iterations == old(viewModel.iterations)
    {
      viewModel.password := storage.Get(PasswordKey);
      viewModel.salt := storage.Get(SaltKey);
      var iterations := storage.Get(IterationsKey);
      if iterations == None {
        viewModel.iterations := DefaultIterations;
      } else {
        var parsed := ParseInt(iterations.value);
        if parsed.Failure? {
          return Some(parsed.error);
        }
        viewModel.iterations := parsed.value;
      }
      thrown := None;
    }

    /** `OnPasswordChanged`: the edited password, or the default, into the view-model and the store. */
    method OnPasswordChanged(password: Option<string>)
      modifies viewModel, storage
      ensures viewModel.password == Some(OrDefault(password, DefaultPassword))
      ensures storage.entries == old(storage.entries)[PasswordKey := OrDefault(password, DefaultPassword)]
      ensures viewModel.salt == old(viewModel.salt) && viewModel.iterations == old(viewModel.iterations)
    {
      viewModel.password := if IsNullOrEmpty(password) then Some(DefaultPassword) else password;
      storage.SetAsync(PasswordKey, viewModel.password.value);
    }

    /** `OnSaltChanged`: the edited salt, or the default, into the view-model and the store. */
    method OnSaltChanged(salt: Option<string>)
      modifies viewModel, storage
      ensures viewModel.salt == Some(OrDefault(salt, DefaultSalt))
      ensures storage.entries == old(storage.entries)[SaltKey := OrDefault(salt, DefaultSalt)]
      ensures viewModel.password == old(viewModel.password) && viewModel.iterations == old(viewModel.iterations)
    {
      viewModel.salt := if IsNullOrEmpty(salt) then Some(DefaultSalt) else salt;
      storage.SetAsync(SaltKey, viewModel.salt.value);
    }

    /**
      `OnIterationsChanged`: zero is ignored; any other value is clamped, kept in
      the view-model and stored as its decimal text, which parses back to it.
    */
    method OnIterationsChanged(iterations: int32)
      modifies viewModel, storage
      ensures iterations == 0 ==> unchanged(viewModel, storage)
      ensures iterations != 0 ==>
                && viewModel.iterations == ClampIterations(iterations)
                && storage.entries == old(storage.entries)[IterationsKey := IntToString(viewModel.iterations)]
                && ParseInt(storage.entries[IterationsKey]) == Success(viewModel.iterations)
      ensures viewModel.password == old(viewModel.password) && viewModel.salt == old(viewModel.salt)
    {
      if iterations == 0 {
        return;
      }
      var value := iterations;
      if value < MinIterations {
        value := MinIterations;
      }
      if value > MaxIterations {
        value := MaxIterations;
      }
      viewModel.iterations := value;
      storage.SetAsync(IterationsKey, IntToString(viewModel.iterations));
      ParseIntToString(viewModel.iterations);
    }

    /** `TogglePasswordVisibility`. */
    method TogglePasswordVisibility()
      requires Valid()
      modifies this
      ensures Valid()
      ensures PasswordView() == Toggled(old(PasswordView())) && SaltView() == old(SaltView())
    {
      if showPassword {
        showPassword := false;
        passwordInputIcon := VisibilityOffIcon;
        passwordInputType := PasswordInput;
      } else {
        showPassword := true;
        passwordInputIcon := VisibilityIcon;
        passwordInputType := TextInput;
      }
    }

    /** `ToggleSaltVisibility`. */
    method ToggleSaltVisibility()
      requires Valid()
      modifies this
      ensures Valid()
      ensures SaltView() == Toggled(old(SaltView())) && PasswordView() == old(PasswordView())
    {
      if showSalt {
        showSalt := false;
        saltInputIcon := VisibilityOffIcon;
        saltInputType := PasswordInput;
      } else {
        showSalt := true;
        saltInputIcon := VisibilityIcon;
        saltInputType := TextInput;
      }
    }
  }
}
