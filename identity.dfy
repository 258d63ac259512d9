/** Identity bookkeeping over the string-valued preference keys of local
    storage (`userId`, `handle`, `color`). A stored value counts only when it
    is truthy, so a stored empty string is treated as missing. The room page
    resolves identity on entry; the landing page saves preferences. */
module Identity {
  import opened Options
  import opened Text

  const UserIdKey := "userId"
  const HandleKey := "handle"
  const ColorKey := "color"

  /** The three preference keys are different keys. */
  lemma KeysDistinct()
    ensures UserIdKey != HandleKey && UserIdKey != ColorKey && HandleKey != ColorKey
  {
    assert UserIdKey[0] == 'u' && HandleKey[0] == 'h';
    assert |ColorKey| == 5;
  }

  /** `localStorage.getItem(key)`. */
  function Get(prefs: map<string, string>, key: string): (v: Option<string>)
    ensures v.Some? <==> key in prefs
    ensures v.Some? ==> v.value == prefs[key]
  {
    if key in prefs then Some(prefs[key]) else None
  }

  /** JavaScript truthiness of a `getItem` result: present and not `''`. */
  predicate Truthy(v: Option<string>)
  {
    v.Some? && v.value != ""
  }

  /** The stored value of `key` when it is truthy, nothing otherwise: what a
      page adopts in `if (stored) { field = stored; }`. */
  function Adopted(prefs: map<string, string>, key: string): (v: Option<string>)
    ensures v.Some? <==> key in prefs && prefs[key] != ""
    ensures v.Some? ==> v.value == prefs[key] && v.value != ""
  {
    if Truthy(Get(prefs, key)) then Get(prefs, key) else None
  }

  /** The user id the room page uses: the stored one when there is one,
      otherwise the freshly generated `freshId`. */
  function ResolvedUserId(prefs: map<string, string>, freshId: string): (id: string)
    ensures Adopted(prefs, UserIdKey).Some? ==> id == prefs[UserIdKey]
    ensures Adopted(prefs, UserIdKey).None? ==> id == freshId
  {
    Adopted(prefs, UserIdKey).GetOr(freshId)
  }

  /** The handle a prompt answer yields: the trimmed answer when it is
      neither cancelled (`None`) nor blank, nothing otherwise. */
  function PromptedHandle(answer: Option<string>): (h: Option<string>)
    ensures answer.Some? && !IsBlank(answer.value) <==> h.Some?
    ensures h.Some? ==> h.value == Trim(answer.value) && h.value != ""
  {
    match answer
    case Some(a) =>
      TrimEmptyIffBlank(a);
      if a != "" && Trim(a) != "" then Some(Trim(a)) else None
    case None => None
  }

  /** The handle the room page ends up with: the stored handle when there is
      one, otherwise what the prompt answer yields. */
  function ResolvedHandle(prefs: map<string, string>, answer: Option<string>): (h: Option<string>)
    ensures Adopted(prefs, HandleKey).Some? ==> h == Adopted(prefs, HandleKey)
    ensures Adopted(prefs, HandleKey).None? ==> h == PromptedHandle(answer)
    ensures h.Some? ==> h.value != ""
  {
    if Adopted(prefs, HandleKey).Some? then Adopted(prefs, HandleKey) else PromptedHandle(answer)
  }

  /** Local storage after the room page resolves identity: `userId` written
      only when no id was stored, `handle` written only when none was stored
      and the answer is not blank; nothing else touched (the colour is only
      read). */
  function EnterPrefs(prefs: map<string, string>, freshId: string, answer: Option<string>): (r: map<string, string>)
    ensures Get(r, UserIdKey) == Some(ResolvedUserId(prefs, freshId))
    ensures Get(r, HandleKey) == if ResolvedHandle(prefs, answer).Some? then ResolvedHandle(prefs, answer) else Get(prefs, HandleKey)
    ensures forall k :: k != UserIdKey && k != HandleKey ==> Get(r, k) == Get(prefs, k)
  {
    KeysDistinct();
    var withId := if Adopted(prefs, UserIdKey).Some? then prefs else prefs[UserIdKey := freshId];
    assert Get(withId, HandleKey) == Get(prefs, HandleKey);
    if Adopted(prefs, HandleKey).None? && ResolvedHandle(prefs, answer).Some?
    then withId[HandleKey := ResolvedHandle(prefs, answer).value]
    else withId
  }

  /** Once the room page has resolved a handle with a non-empty generated id,
      a later visit (any new id, any prompt answer) writes nothing and
      resolves the very same user id, handle and colour. */
  lemma EntryIsStable(prefs: map<string, string>, freshId: string, answer: Option<string>,
                      laterId: string, laterAnswer: Option<string>)
    requires freshId != ""
    requires ResolvedHandle(prefs, answer).Some?
    ensures var after := EnterPrefs(prefs, freshId, answer);
      && EnterPrefs(after, laterId, laterAnswer) == after
      && ResolvedUserId(after, laterId) == ResolvedUserId(prefs, freshId)
      && ResolvedHandle(after, laterAnswer) == ResolvedHandle(prefs, answer)
      && Adopted(after, ColorKey) == Adopted(prefs, ColorKey)
  {
    KeysDistinct();
    var after := EnterPrefs(prefs, freshId, answer);
    assert Get(after, ColorKey) == Get(prefs, ColorKey);
    assert Adopted(after, UserIdKey).Some? && Adopted(after, HandleKey).Some?;
  }

  /** Local storage after the landing page's `savePrefs`, given the `handle`
      and `color` fields: the handle key is written with the trimmed field only
      when no truthy handle is stored (and that may store `''`), the colour
      key is always overwritten, and nothing else changes. */
  function SavedPrefs(prefs: map<string, string>, handle: string, color: string): (r: map<string, string>)
    ensures Adopted(prefs, HandleKey).Some? ==> Get(r, HandleKey) == Get(prefs, HandleKey)
    ensures Adopted(prefs, HandleKey).None? ==> Get(r, HandleKey) == Some(Trim(handle))
    ensures Get(r, ColorKey) == Some(color)
    ensures forall k :: k != HandleKey && k != ColorKey ==> Get(r, k) == Get(prefs, k)
  {
    KeysDistinct();
    var withHandle := if Adopted(prefs, HandleKey).None? then prefs[HandleKey := Trim(handle)] else prefs;
    withHandle[ColorKey := color]
  }

  /** The handle lock: once `savePrefs` has stored a non-blank handle, a later
      `savePrefs` with any other handle keeps it. */
  lemma HandleLocks(prefs: map<string, string>, first: string, second: string, c1: string, c2: string)
    requires Adopted(prefs, HandleKey).None? && !IsBlank(first)
    ensures Get(SavedPrefs(SavedPrefs(prefs, first, c1), second, c2), HandleKey) == Some(Trim(first))
    ensures Get(SavedPrefs(SavedPrefs(prefs, first, c1), second, c2), ColorKey) == Some(c2)
  {
    KeysDistinct();
    TrimEmptyIffBlank(first);
    assert Adopted(SavedPrefs(prefs, first, c1), HandleKey).Some?;
  }

  /** An empty handle does not lock: `savePrefs` with a blank handle stores
      `''`, and the next `savePrefs` overwrites it. */
  lemma BlankHandleDoesNotLock(prefs: map<string, string>, first: string, second: string, c1: string, c2: string)
    requires Adopted(prefs, HandleKey).None? && IsBlank(first)
    ensures Get(SavedPrefs(prefs, first, c1), HandleKey) == Some("")
    ensures Get(SavedPrefs(SavedPrefs(prefs, first, c1), second, c2), HandleKey) == Some(Trim(second))
  {
    KeysDistinct();
    TrimEmptyIffBlank(first);
  }

  /** A handle chosen at the room page's prompt is locked for the landing page
      too: `savePrefs` keeps it whatever handle field it is given. */
  lemma PromptedHandleLocksPrefs(prefs: map<string, string>, freshId: string, answer: Option<string>,
                                 handle: string, color: string)
    requires ResolvedHandle(prefs, answer).Some?
    ensures Get(SavedPrefs(EnterPrefs(prefs, freshId, answer), handle, color), HandleKey) == ResolvedHandle(prefs, answer)
  {
    KeysDistinct();
    assert Adopted(EnterPrefs(prefs, freshId, answer), HandleKey).Some?;
  }
}
