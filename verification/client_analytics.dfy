/**
 * The page-view tracker that runs in the visitor's browser: the page name it
 * reports and the per-tab session id kept in session storage. The storage is a
 * map from key to text; the clock and the random suffix are parameters.
 */
module ClientAnalytics {
  import Text

  const SessionKey: string := "spa-doctors-session"
  const SessionPrefix: string := "session_"

  /** The page name for a location path: "home" for the root, otherwise the path without its leading slash. */
  function GetCurrentPage(path: string): (page: string)
    ensures path == "/" ==> page == "home"
    ensures path != "/" && Text.StartsWith(path, "/") ==> page == path[1..]
    ensures !Text.StartsWith(path, "/") ==> page == path
  {
    if path == "/" then "home"
    else if Text.StartsWith(path, "/") then path[1..]
    else path
  }

  /** Apart from the root, a slash path is recovered from its page name by putting the slash back. */
  lemma PageNameInverse(path: string)
    requires Text.StartsWith(path, "/") && path != "/"
    ensures "/" + GetCurrentPage(path) == path
  {
  }

  /** Two different slash paths other than the root never share a page name. */
  lemma PageNamesDistinct(p: string, q: string)
    requires Text.StartsWith(p, "/") && p != "/"
    requires Text.StartsWith(q, "/") && q != "/"
    requires GetCurrentPage(p) == GetCurrentPage(q)
    ensures p == q
  {
    PageNameInverse(p);
    PageNameInverse(q);
  }

  /** A fresh id: `session_`, the time in milliseconds, `_`, and the random base-36 suffix. */
  function NewSessionId(nowMs: nat, random: string): (id: string)
    ensures |id| > |SessionPrefix| && id[..|SessionPrefix|] == SessionPrefix
  {
    SessionPrefix + Text.DecimalString(nowMs) + "_" + random
  }

  /**
   * Reads the stored id; when there is none (or it is empty, which is falsy)
   * makes a fresh one and stores it. Returns the id and the storage afterwards.
   */
  function GetSessionId(storage: map<string, string>, nowMs: nat, random: string): (r: (string, map<string, string>))
    ensures SessionKey in r.1 && r.1[SessionKey] == r.0
    ensures r.0 != ""
    ensures SessionKey in storage && storage[SessionKey] != "" ==> r.0 == storage[SessionKey] && r.1 == storage
    ensures !(SessionKey in storage && storage[SessionKey] != "") ==>
              r.0 == NewSessionId(nowMs, random) && r.1 == storage[SessionKey := r.0]
    ensures forall k :: k in storage && k != SessionKey ==> k in r.1 && r.1[k] == storage[k]
  {
    if SessionKey in storage && storage[SessionKey] != "" then (storage[SessionKey], storage)
    else
      var id := NewSessionId(nowMs, random);
      (id, storage[SessionKey := id])
  }

  /** A second call, whatever its clock and random suffix, returns the same id and leaves storage as the first call left it. */
  lemma SessionIdStable(storage: map<string, string>, now1: nat, random1: string, now2: nat, random2: string)
    ensures var (id1, after1) := GetSessionId(storage, now1, random1);
            GetSessionId(after1, now2, random2) == (id1, after1)
  {
  }
}
