/**
  The text page's start-up: when any credential is missing or empty it stores
  the default credentials, all three of them, and tells the user so.
*/
module TextPage {
  import opened Wrappers
  import opened CSharpInt
  import opened CredentialStore
  import SettingsPage

  const DefaultIterationsText: string := "30000"

  /** The store after seeding: unchanged when complete, else all three defaults written. */
  function SeedDefaults(entries: map<string, string>): (r: map<string, string>)
    ensures HasCredentials(r)
    ensures HasCredentials(entries) ==> r == entries
    ensures !HasCredentials(entries) ==>
              && r[PasswordKey] == SettingsPage.DefaultPassword
              && r[SaltKey] == SettingsPage.DefaultSalt
              && r[IterationsKey] == DefaultIterationsText
    ensures forall key :: key != PasswordKey && key != SaltKey && key != IterationsKey ==>
              Lookup(r, key) == Lookup(entries, key)
  {
    if HasCredentials(entries) then entries
    else entries[PasswordKey := SettingsPage.DefaultPassword]
                [SaltKey := SettingsPage.DefaultSalt]
                [IterationsKey := DefaultIterationsText]
  }

  /** Seeding twice has the effect of seeding once. */
  lemma SeedDefaultsIdempotent(entries: map<string, string>)
    ensures SeedDefaults(SeedDefaults(entries)) == SeedDefaults(entries)
  {
  }

  /** The seeded count parses to 30000, a value the settings clamp leaves alone. */
  lemma SeededIterationsInRange()
    ensures ParseInt(DefaultIterationsText) == Success(SettingsPage.DefaultIterations)
    ensures SettingsPage.ClampIterations(SettingsPage.DefaultIterations) == SettingsPage.DefaultIterations
  {
    assert DefaultIterationsText == IntToString(SettingsPage.DefaultIterations) by {
      assert DecimalDigits(30000) == DecimalDigits(3000) + [DigitChar(0)];
      assert DecimalDigits(3000) == DecimalDigits(300) + [DigitChar(0)];
      assert DecimalDigits(300) == DecimalDigits(30) + [DigitChar(0)];
      assert DecimalDigits(30) == DecimalDigits(3) + [DigitChar(0)];
    }
    ParseIntToString(SettingsPage.DefaultIterations);
  }

  class TextPage {
    const storage: SecureStorage

    constructor (storage: SecureStorage)
      ensures this.storage == storage
    {
      this.storage := storage;
    }

    /**
      `OnInitializedAsync`: checks the three keys in turn and, if one is null or
      empty, writes all three defaults; the dialog is shown exactly then.
    */
    method OnInitialized() returns (dialogShown: bool)
      modifies storage
      ensures storage.entries == SeedDefaults(old(storage.entries))
      ensures dialogShown <==> !HasCredentials(old(storage.entries))
    {
      if IsNullOrEmpty(storage.Get(PasswordKey))
         || IsNullOrEmpty(storage.Get(SaltKey))
         || IsNullOrEmpty(storage.Get(IterationsKey))
      {
        storage.SetAsync(PasswordKey, SettingsPage.DefaultPassword);
        storage.SetAsync(SaltKey, SettingsPage.DefaultSalt);
        storage.SetAsync(IterationsKey, DefaultIterationsText);
        dialogShown := true;
      } else {
        dialogShown := false;
      }
    }
  }
}
