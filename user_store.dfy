/**
 * The account store (`useUserStore`): the signed-in user, if any, with the
 * credit balance and the editor preferences. Every update is a shallow
 * merge that leaves a signed-out store signed out.
 */
module UserStore {
  import opened Nullable

  datatype Tier = Free | Pro | Enterprise

  datatype ThemeChoice = Dark | Light

  datatype Preferences = Preferences(theme: ThemeChoice, editorTheme: string, enableVoiceInput: bool, enableCollaboration: bool)

  /** A user; `createdAt` is in milliseconds and `credits` is a whole number. */
  datatype User = User(
    id: string,
    email: string,
    name: string,
    credits: int,
    subscriptionTier: Tier,
    avatar: Option<string>,
    createdAt: int,
    preferences: Preferences)

  /** A `Partial<User>`; `None` where the key is absent, `Some(None)` for an `avatar` key holding `undefined`. */
  datatype UserPatch = UserPatch(
    id: Option<string>,
    email: Option<string>,
    name: Option<string>,
    credits: Option<int>,
    subscriptionTier: Option<Tier>,
    avatar: Option<Option<string>>,
    createdAt: Option<int>,
    preferences: Option<Preferences>)

  /** A `Partial<User['preferences']>`. */
  datatype PreferencesPatch = PreferencesPatch(
    theme: Option<ThemeChoice>,
    editorTheme: Option<string>,
    enableVoiceInput: Option<bool>,
    enableCollaboration: Option<bool>)

  /** `{ ...user, ...updates }`. */
  function MergeUser(user: User, u: UserPatch): User
  {
    User(
      Pick(u.id, user.id),
      Pick(u.email, user.email),
      Pick(u.name, user.name),
      Pick(u.credits, user.credits),
      Pick(u.subscriptionTier, user.subscriptionTier),
      Pick(u.avatar, user.avatar),
      Pick(u.createdAt, user.createdAt),
      Pick(u.preferences, user.preferences))
  }

  /** `{ ...preferences, ...patch }`. */
  function MergePreferences(p: Preferences, u: PreferencesPatch): Preferences
  {
    Preferences(
      Pick(u.theme, p.theme),
      Pick(u.editorTheme, p.editorTheme),
      Pick(u.enableVoiceInput, p.enableVoiceInput),
      Pick(u.enableCollaboration, p.enableCollaboration))
  }

  /** `user` after `updateUser(u)`: the given keys replace the user's, and no user stays no user. */
  function UpdatedUser(user: Option<User>, u: UserPatch): (r: Option<User>)
    ensures r.Some? <==> user.Some?
    ensures r.Some? ==> r.value == MergeUser(user.value, u)
  {
    if user.Some? then Some(MergeUser(user.value, u)) else None
  }

  /** Overlaying a patch keeps every field the patch does not name and takes every field it does. */
  lemma MergeUserFields(user: User, u: UserPatch)
    ensures MergeUser(user, u).id == if u.id.Some? then u.id.value else user.id
    ensures MergeUser(user, u).email == if u.email.Some? then u.email.value else user.email
    ensures MergeUser(user, u).name == if u.name.Some? then u.name.value else user.name
    ensures MergeUser(user, u).credits == if u.credits.Some? then u.credits.value else user.credits
    ensures MergeUser(user, u).subscriptionTier == if u.subscriptionTier.Some? then u.subscriptionTier.value else user.subscriptionTier
    ensures MergeUser(user, u).avatar == if u.avatar.Some? then u.avatar.value else user.avatar
    ensures MergeUser(user, u).createdAt == if u.createdAt.Some? then u.createdAt.value else user.createdAt
    ensures MergeUser(user, u).preferences == if u.preferences.Some? then u.preferences.value else user.preferences
    ensures u == UserPatch(None, None, None, None, None, None, None, None) ==> MergeUser(user, u) == user
    ensures MergeUser(MergeUser(user, u), u) == MergeUser(user, u)
  {
  }

  /**
   * `user` after `updatePreferences(u)`: only the given preference keys
   * change; every other preference and every other user field is kept.
   */
  function UpdatedPreferences(user: Option<User>, u: PreferencesPatch): (r: Option<User>)
    ensures r.Some? <==> user.Some?
    ensures r.Some? ==> r.value == user.value.(preferences := r.value.preferences)
    ensures r.Some? ==> r.value.preferences.theme == Pick(u.theme, user.value.preferences.theme)
    ensures r.Some? ==> r.value.preferences.editorTheme == Pick(u.editorTheme, user.value.preferences.editorTheme)
    ensures r.Some? ==> r.value.preferences.enableVoiceInput == Pick(u.enableVoiceInput, user.value.preferences.enableVoiceInput)
    ensures r.Some? ==> r.value.preferences.enableCollaboration == Pick(u.enableCollaboration, user.value.preferences.enableCollaboration)
  {
    if user.Some? then Some(user.value.(preferences := MergePreferences(user.value.preferences, u))) else None
  }

  /** Two preference updates in a row equal one update whose later keys win. */
  lemma PreferencesCompose(p: Preferences, u: PreferencesPatch, v: PreferencesPatch)
    ensures MergePreferences(MergePreferences(p, u), v) == MergePreferences(p, PreferencesPatch(
      if v.theme.Some? then v.theme else u.theme,
      if v.editorTheme.Some? then v.editorTheme else u.editorTheme,
      if v.enableVoiceInput.Some? then v.enableVoiceInput else u.enableVoiceInput,
      if v.enableCollaboration.Some? then v.enableCollaboration else u.enableCollaboration))
  {
  }

  /** `Math.max(0, credits - amount)`. */
  function Deducted(credits: int, amount: int): (r: int)
    ensures r >= 0
    ensures credits - amount >= 0 ==> r == credits - amount
    ensures credits - amount < 0 ==> r == 0
  {
    if credits - amount > 0 then credits - amount else 0
  }

  /** `user` after `deductCredits(amount)`: only the credits change, and they never drop below zero. */
  function DeductedUser(user: Option<User>, amount: int): (r: Option<User>)
    ensures r.Some? <==> user.Some?
    ensures r.Some? ==> r.value == user.value.(credits := Deducted(user.value.credits, amount))
    ensures r.Some? ==> r.value.credits >= 0
  {
    if user.Some? then Some(user.value.(credits := Deducted(user.value.credits, amount))) else None
  }

  /** Deducting a non-negative amount in two steps is deducting the total at once. */
  lemma {:induction false} DeductTwice(credits: int, a: int, b: int)
    requires b >= 0
    ensures Deducted(Deducted(credits, a), b) == Deducted(credits, a + b)
  {
    if credits - a < 0 {
      assert Deducted(credits, a) == 0;
    }
  }

  /** A deduction of at most the balance leaves exactly the difference; a larger one leaves nothing. */
  lemma DeductBounds(credits: int, amount: int)
    requires 0 <= amount
    ensures 0 <= Deducted(credits, amount) <= (if credits > 0 then credits else 0)
    ensures amount <= credits ==> Deducted(credits, amount) == credits - amount
  {
  }

  /** The data fields of the store. */
  datatype UserState = UserState(user: Option<User>, isLoading: bool, error: Option<string>)

  /** The state the store is created with (before any persisted state is restored). */
  const Initial: UserState := UserState(None, false, None)

  /** The account store: one field per state key. */
  class Store {
    var user: Option<User>
    var isLoading: bool
    var error: Option<string>

    function State(): UserState
      reads this
    {
      UserState(user, isLoading, error)
    }

    constructor()
      ensures State() == Initial
    {
      user := None;
      isLoading := false;
      error := None;
    }

    method SetUser(u: User)
      modifies this
      ensures State() == old(State()).(user := Some(u), error := None)
    {
      user := Some(u);
      error := None;
    }

    method UpdateUser(updates: UserPatch)
      modifies this
      ensures State() == old(State()).(user := UpdatedUser(old(user), updates))
    {
      if user.Some? {
        user := Some(MergeUser(user.value, updates));
      }
    }

    method UpdatePreferences(preferences: PreferencesPatch)
      modifies this
      ensures State() == old(State()).(user := UpdatedPreferences(old(user), preferences))
    {
      if user.Some? {
        user := Some(user.value.(preferences := MergePreferences(user.value.preferences, preferences)));
      }
    }

    method DeductCredits(amount: int)
      modifies this
      ensures State() == old(State()).(user := DeductedUser(old(user), amount))
    {
      if user.Some? {
        user := Some(user.value.(credits := Deducted(user.value.credits, amount)));
      }
    }

    method ClearUser()
      modifies this
      ensures State() == old(State()).(user := None, error := None)
    {
      user := None;
      error := None;
    }
  }
}
