/** The API key format check shared by utils/api.js and options/options.js:
    a key is valid when it is present, non-empty and matches
    `^sk-[a-zA-Z0-9]{32,}$`. */
module KeyFormat {
  import opened Wrappers

  const KEY_PREFIX := "sk-"
  /** The least number of alphanumerics after the prefix. */
  const MIN_KEY_BODY := 32

  /** The character class `[a-zA-Z0-9]`. */
  predicate IsAsciiAlphanumeric(c: char) {
    ('a' <= c <= 'z') || ('A' <= c <= 'Z') || ('0' <= c <= '9')
  }

  /** What the pattern accepts, stated directly: the prefix `sk-`, then only
      ASCII letters and digits, at least 32 of them, and nothing else. */
  ghost predicate MatchesKeyPattern(k: string) {
    && |k| >= |KEY_PREFIX| + MIN_KEY_BODY
    && k[..|KEY_PREFIX|] == KEY_PREFIX
    && forall i :: |KEY_PREFIX| <= i < |k| ==> IsAsciiAlphanumeric(k[i])
  }

  /** The anchored tail `[a-zA-Z0-9]{n,}$` run over `s` one character at a time. */
  function AlnumTail(s: string, n: nat): bool {
    if s == [] then n == 0
    else IsAsciiAlphanumeric(s[0]) && AlnumTail(s[1..], if n > 0 then n - 1 else 0)
  }

  /** The tail matcher accepts exactly the all-alphanumeric strings of length
      at least `n`. */
  lemma {:induction false} AlnumTailMeaning(s: string, n: nat)
    ensures AlnumTail(s, n) <==> (|s| >= n && forall i :: 0 <= i < |s| ==> IsAsciiAlphanumeric(s[i]))
  {
    if s != [] {
      AlnumTailMeaning(s[1..], if n > 0 then n - 1 else 0);
      assert forall i :: 1 <= i < |s| ==> s[i] == s[1..][i - 1];
    }
  }

  /** `API_KEY_PATTERN.test(k)`: the prefix characters, then the tail matcher. */
  function TestKeyPattern(k: string): (r: bool)
    ensures r <==> MatchesKeyPattern(k)
  {
    if |k| < 3 then false
    else
      AlnumTailMeaning(k[3..], MIN_KEY_BODY);
      assert forall i :: 3 <= i < |k| ==> k[i] == k[3..][i - 3];
      assert k[..3] == KEY_PREFIX <==> k[0] == 's' && k[1] == 'k' && k[2] == '-';
      k[0] == 's' && k[1] == 'k' && k[2] == '-' && AlnumTail(k[3..], MIN_KEY_BODY)
  }

  /** `validateApiKey(apiKey)`: false for a missing (`null`/`undefined`) or
      empty key, otherwise the pattern test. */
  function ValidateApiKey(apiKey: Option<string>): (valid: bool)
    ensures valid <==> apiKey.Some? && MatchesKeyPattern(apiKey.value)
    ensures valid ==> |apiKey.value| >= 35 && apiKey.value[..3] == "sk-"
  {
    match apiKey
    case None => false
    case Some(k) => k != "" && TestKeyPattern(k)
  }
}
