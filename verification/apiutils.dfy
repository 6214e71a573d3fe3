/** utils/api.js: the credential helpers over `chrome.storage.local` and the
    API error message mapping. (`formatResponse` is in ResponseFormat.) */
module ApiUtils {
  import opened Wrappers
  import opened JsString
  import opened KeyFormat
  import opened ChromeStorage

  /** The one storage slot the credential lives in. */
  const STORAGE_KEY := "deepseek_api_key"

  const INVALID_KEY_FORMAT := "Invalid API key format"
  const SAVE_FAILED := "Failed to save API key"
  const REMOVE_FAILED := "Failed to remove API key"

  // The user-facing messages, each written as a head sentence and a tail.
  const TRY_AGAIN_LATER := " Please try again later."
  const INVALID_KEY_MESSAGE := "Invalid API key." + " Please check your settings."
  const RATE_LIMIT_MESSAGE := "Rate limit exceeded." + TRY_AGAIN_LATER
  const SERVER_ERROR_MESSAGE := "Deepseek API server error." + TRY_AGAIN_LATER
  const NETWORK_MESSAGE := "Network error." + " Please check your internet connection."
  const UNEXPECTED_MESSAGE := "An unexpected error occurred." + " Please try again."
  const FETCH_FAILURE := "Failed to fetch"

  /** `getApiKey()`: the stored key, or `null` when the slot is absent, holds
      the empty string, or the read throws. */
  function GetApiKey(store: LocalStorage, fault: bool): (key: Option<string>)
    reads store
    ensures key.Some? <==> !fault && STORAGE_KEY in store.items && store.items[STORAGE_KEY] != ""
    ensures key.Some? ==> key.value == store.items[STORAGE_KEY]
  {
    match store.Get(STORAGE_KEY, fault)
    case ReadFailed => None
    case Read(entry) => if entry.Some? && entry.value != "" then entry else None
  }

  /** `isApiKeyConfigured()`: a key is stored, readable and well formed. */
  function IsApiKeyConfigured(store: LocalStorage, fault: bool): (configured: bool)
    reads store
    ensures configured <==> !fault && STORAGE_KEY in store.items && MatchesKeyPattern(store.items[STORAGE_KEY])
  {
    var key := GetApiKey(store, fault);
    key.Some? && ValidateApiKey(key)
  }

  /** `saveApiKey(apiKey)`: refuses a malformed key before touching storage;
      otherwise writes the one slot, reporting a storage failure. */
  method SaveApiKey(store: LocalStorage, apiKey: Option<string>, fault: bool) returns (r: Outcome<string>)
    modifies store
    ensures !ValidateApiKey(apiKey) ==> r == Fail(INVALID_KEY_FORMAT) && store.items == old(store.items)
    ensures ValidateApiKey(apiKey) && fault ==> r == Fail(SAVE_FAILED) && store.items == old(store.items)
    ensures ValidateApiKey(apiKey) && !fault ==> r == Pass && store.items == old(store.items)[STORAGE_KEY := apiKey.value]
    ensures r == Pass ==> GetApiKey(store, false) == apiKey && IsApiKeyConfigured(store, false)
    ensures forall k :: k != STORAGE_KEY ==>
      (k in store.items <==> k in old(store.items)) && (k in store.items ==> store.items[k] == old(store.items)[k])
  {
    if !ValidateApiKey(apiKey) {
      return Fail(INVALID_KEY_FORMAT);
    }
    var ok := store.Set(STORAGE_KEY, apiKey.value, fault);
    if !ok {
      return Fail(SAVE_FAILED);
    }
    return Pass;
  }

  /** `removeApiKey()`: deletes the slot, reporting a storage failure. */
  method RemoveApiKey(store: LocalStorage, fault: bool) returns (r: Outcome<string>)
    modifies store
    ensures fault ==> r == Fail(REMOVE_FAILED) && store.items == old(store.items)
    ensures !fault ==> r == Pass && store.items == old(store.items) - {STORAGE_KEY}
    ensures r == Pass ==> GetApiKey(store, false) == None && !IsApiKeyConfigured(store, false)
  {
    var ok := store.Remove(STORAGE_KEY, fault);
    if !ok {
      return Fail(REMOVE_FAILED);
    }
    return Pass;
  }

  /** `handleApiError(error)`: a fixed message for 401, 429 and 500, the
      status number for any other status, and without a status either the
      network message or the generic one. */
  function HandleApiError(error: ErrorValue): (msg: string)
    ensures error.response == Some(401) ==> msg == INVALID_KEY_MESSAGE
    ensures error.response == Some(429) ==> msg == RATE_LIMIT_MESSAGE
    ensures error.response == Some(500) ==> msg == SERVER_ERROR_MESSAGE
    ensures error.response.Some? && error.response.value !in {401, 429, 500} ==>
      msg == "API error: " + NatToString(error.response.value)
    ensures error.response.None? ==>
      msg == (if Includes(error.message, FETCH_FAILURE) then NETWORK_MESSAGE else UNEXPECTED_MESSAGE)
  {
    match error.response
    case Some(status) =>
      if status == 401 then INVALID_KEY_MESSAGE
      else if status == 429 then RATE_LIMIT_MESSAGE
      else if status == 500 then SERVER_ERROR_MESSAGE
      else "API error: " + NatToString(status)
    case None =>
      if Includes(error.message, FETCH_FAILURE) then NETWORK_MESSAGE
      else UNEXPECTED_MESSAGE
  }

  /** The message of an error carrying a status identifies that status: no
      other status, and no status-less error, yields the same message. */
  lemma StatusMessagesDistinct(a: ErrorValue, b: ErrorValue)
    requires a.response.Some? && b.response != a.response
    ensures HandleApiError(a) != HandleApiError(b)
  {
    var fixed := {401, 429, 500};
    if a.response.value !in fixed && b.response.Some? && b.response.value !in fixed {
      NumberedMessagesDistinct(a.response.value, b.response.value);
    } else if a.response.value !in fixed {
      NumberedMessageNotFixed(a.response.value, HandleApiError(b));
    } else if b.response.Some? && b.response.value !in fixed {
      NumberedMessageNotFixed(b.response.value, HandleApiError(a));
    } else {
      // Both messages are fixed ones, which differ in their first character.
      assert INVALID_KEY_MESSAGE[0] == 'I' && RATE_LIMIT_MESSAGE[0] == 'R';
      assert SERVER_ERROR_MESSAGE[0] == 'D' && NETWORK_MESSAGE[0] == 'N';
      assert UNEXPECTED_MESSAGE[0] == 'A';
    }
  }

  /** Two different statuses outside the table get different messages. */
  lemma NumberedMessagesDistinct(m: nat, n: nat)
    requires m != n
    ensures "API error: " + NatToString(m) != "API error: " + NatToString(n)
  {
    var head := "API error: ";
    assert (head + NatToString(m))[|head|..] == NatToString(m);
    assert (head + NatToString(n))[|head|..] == NatToString(n);
  }

  /** A numbered message is none of the fixed messages: it begins "AP". */
  lemma NumberedMessageNotFixed(n: nat, msg: string)
    requires msg in {INVALID_KEY_MESSAGE, RATE_LIMIT_MESSAGE, SERVER_ERROR_MESSAGE,
                     NETWORK_MESSAGE, UNEXPECTED_MESSAGE}
    ensures "API error: " + NatToString(n) != msg
  {
    var numbered := "API error: " + NatToString(n);
    assert numbered[0] == 'A' && numbered[1] == 'P';
    assert INVALID_KEY_MESSAGE[0] == 'I' && RATE_LIMIT_MESSAGE[0] == 'R';
    assert SERVER_ERROR_MESSAGE[0] == 'D' && NETWORK_MESSAGE[0] == 'N';
    assert UNEXPECTED_MESSAGE[1] == 'n';
  }
}
