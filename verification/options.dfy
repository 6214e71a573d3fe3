/** options/options.js: the settings page. Its key validation is the shared
    KeyFormat.ValidateApiKey, its `getApiKey` is the same expression as in
    utils/api.js (ApiUtils.GetApiKey); its own `saveApiKey` differs only in
    the message for a malformed key. The page state is the key input's
    value, its `data-masked` attribute and the status line. */
module Options {
  import opened Wrappers
  import opened JsString
  import opened KeyFormat
  import opened ChromeStorage
  import ApiUtils

  const BULLET := '\U{2022}'
  /** The number of bullets in front of the visible key tail. */
  const MASK_LENGTH := 16
  /** The number of trailing key characters left visible. */
  const VISIBLE_TAIL := 4

  const INVALID_KEY_FORMAT := "Invalid API key format."
    + " Key should start with \"sk-\" followed by 32 or more characters."
  const SAVED := "API key saved successfully!"

  /** `c.repeat(n)`. */
  function Repeat(c: char, n: nat): (r: string)
    ensures |r| == n && forall i :: 0 <= i < n ==> r[i] == c
  {
    if n == 0 then [] else Repeat(c, n - 1) + [c]
  }

  /** `s.slice(-n)`: the last `n` characters, or all of a shorter `s`;
      `-0` is `0`, so `slice(-0)` is all of `s` too. */
  function SliceLast(s: string, n: nat): (r: string)
    ensures |r| == if |s| < n || n == 0 then |s| else n
    ensures EndsWith(s, r)
  {
    if |s| < n || n == 0 then s else s[|s| - n..]
  }

  /** `'•'.repeat(16) + apiKey.slice(-4)`: sixteen bullets, then the last
      four characters of the key (all of a shorter key). */
  function MaskedDisplay(apiKey: string): (r: string)
    ensures |r| == MASK_LENGTH + (if |apiKey| < VISIBLE_TAIL then |apiKey| else VISIBLE_TAIL)
    ensures forall i :: 0 <= i < MASK_LENGTH ==> r[i] == BULLET
    ensures EndsWith(apiKey, r[MASK_LENGTH..])
  {
    var r := Repeat(BULLET, MASK_LENGTH) + SliceLast(apiKey, VISIBLE_TAIL);
    assert r[MASK_LENGTH..] == SliceLast(apiKey, VISIBLE_TAIL);
    r
  }

  /** options.js's `saveApiKey(apiKey)`: refuses a malformed key before
      touching storage; otherwise writes the one slot. */
  method SaveApiKey(store: LocalStorage, apiKey: Option<string>, fault: bool) returns (r: Outcome<string>)
    modifies store
    ensures !ValidateApiKey(apiKey) ==> r == Fail(INVALID_KEY_FORMAT) && store.items == old(store.items)
    ensures ValidateApiKey(apiKey) && fault ==> r == Fail(ApiUtils.SAVE_FAILED) && store.items == old(store.items)
    ensures ValidateApiKey(apiKey) && !fault ==>
      r == Pass && store.items == old(store.items)[ApiUtils.STORAGE_KEY := apiKey.value]
    ensures r == Pass ==> ApiUtils.GetApiKey(store, false) == apiKey
  {
    if !ValidateApiKey(apiKey) {
      return Fail(INVALID_KEY_FORMAT);
    }
    var ok := store.Set(ApiUtils.STORAGE_KEY, apiKey.value, fault);
    if !ok {
      return Fail(ApiUtils.SAVE_FAILED);
    }
    return Pass;
  }

  /** A well-formed key typed with surrounding white space is trimmed back to
      itself, and so is accepted by the save button. */
  lemma PaddedKeyAccepted(pre: string, key: string, post: string)
    requires AllSpace(pre) && AllSpace(post) && MatchesKeyPattern(key)
    ensures Trim(pre + key + post) == key
    ensures ValidateApiKey(Some(Trim(pre + key + post)))
  {
    assert key[0] == key[..3][0] == 's';
    assert IsAsciiAlphanumeric(key[|key| - 1]);
    TrimPadded(pre, key, post);
  }

  /** A line of the status area: its text and whether it shows an error. */
  datatype Status = Status(message: string, isError: bool)

  class OptionsPage {
    /** The key input's `value`. */
    var inputValue: string
    /** Whether the input carries `data-masked="true"`. */
    var masked: bool
    /** The status message last shown. */
    var status: Option<Status>

    constructor ()
      ensures inputValue == "" && !masked && status == None
    {
      inputValue, masked, status := "", false, None;
    }

    /** `showStatus(message, isError)`: the status line shows the message. */
    method ShowStatus(message: string, isError: bool)
      modifies this
      ensures status == Some(Status(message, isError))
      ensures inputValue == old(inputValue) && masked == old(masked)
    {
      status := Some(Status(message, isError));
    }

    /** The input shows the masked key and is flagged `data-masked`. */
    method ShowMasked(apiKey: string)
      modifies this
      ensures inputValue == MaskedDisplay(apiKey) && masked
      ensures status == old(status)
    {
      inputValue := MaskedDisplay(apiKey);
      masked := true;
    }

    /** `loadSavedApiKey()`: shows a stored key masked. */
    method LoadSavedApiKey(store: LocalStorage, fault: bool)
      modifies this
      ensures var key := ApiUtils.GetApiKey(store, fault);
        if key.Some? then inputValue == MaskedDisplay(key.value) && masked
        else inputValue == old(inputValue) && masked == old(masked)
      ensures status == old(status)
    {
      var key := ApiUtils.GetApiKey(store, fault);
      if key.Some? {
        ShowMasked(key.value);
      }
    }

    /** The input's `focus` handler: a masked input is emptied and unmasked;
      an unmasked one is left alone. */
    method Focus()
      modifies this
      ensures old(masked) ==> inputValue == "" && !masked
      ensures !old(masked) ==> inputValue == old(inputValue) && !masked
      ensures status == old(status)
    {
      if masked {
        inputValue := "";
        masked := false;
      }
    }

    /** The save button's `click` handler: trims the input, validates it,
      saves it, and reports the outcome; after a successful save the input
      shows the masked key. */
    method SaveClick(store: LocalStorage, fault: bool)
      modifies this, store
      ensures !ValidateApiKey(Some(Trim(old(inputValue)))) ==>
        && status == Some(Status(INVALID_KEY_FORMAT, true))
        && store.items == old(store.items)
        && inputValue == old(inputValue) && masked == old(masked)
      ensures ValidateApiKey(Some(Trim(old(inputValue)))) && fault ==>
        && status == Some(Status(ApiUtils.SAVE_FAILED, true))
        && store.items == old(store.items)
        && inputValue == old(inputValue) && masked == old(masked)
      ensures ValidateApiKey(Some(Trim(old(inputValue)))) && !fault ==>
        var key := Trim(old(inputValue));
        && status == Some(Status(SAVED, false))
        && store.items == old(store.items)[ApiUtils.STORAGE_KEY := key]
        && inputValue == MaskedDisplay(key) && masked
    {
      var key := Trim(inputValue);
      if !ValidateApiKey(Some(key)) {
        ShowStatus(INVALID_KEY_FORMAT, true);
        return;
      }
      var saved := SaveApiKey(store, Some(key), fault);
      if saved.Fail? {
        ShowStatus(saved.error, true);
        return;
      }
      ShowStatus(SAVED, false);
      ShowMasked(key);
    }
  }
}
