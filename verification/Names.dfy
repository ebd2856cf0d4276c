/** Dotted names: the string operations that the descriptor builder performs on scopes and full names. */
module Names {

  // ---------- positions of dots ----------

  /** `s.find_last_of('.')`, with -1 for npos. */
  function LastDot(s: string): (r: int)
    ensures -1 <= r < |s|
    ensures r >= 0 ==> s[r] == '.'
    ensures forall i :: r < i < |s| ==> s[i] != '.'
  {
    if s == "" then -1
    else if s[|s| - 1] == '.' then |s| - 1
    else LastDot(s[..|s| - 1])
  }

  /** `s.find_first_of('.')`, with -1 for npos. */
  function FirstDot(s: string): (r: int)
    ensures -1 <= r < |s|
    ensures r >= 0 ==> s[r] == '.'
    ensures forall i :: 0 <= i < (if r < 0 then |s| else r) ==> s[i] != '.'
    decreases |s|
  {
    if s == "" then -1
    else if s[0] == '.' then 0
    else
      var r := FirstDot(s[1..]);
      if r < 0 then -1 else r + 1
  }

  predicate DotFree(s: string) {
    '.' !in s
  }

  /** The scope that directly encloses a dotted name. */
  function Parent(s: string): string
    requires LastDot(s) >= 0
  {
    s[..LastDot(s)]
  }

  /** The part of a name before its first dot, and the whole name when it has none. */
  function FirstPart(s: string): string {
    if FirstDot(s) < 0 then s else s[..FirstDot(s)]
  }

  /** How the builder forms a full name: no dot is written when the scope is empty. */
  function Qualify(scope: string, name: string): string {
    if scope == "" then name else scope + "." + name
  }

  lemma LastDotNone(s: string)
    requires DotFree(s)
    ensures LastDot(s) == -1
  {
  }

  /** Appending a dot-free component puts the last dot right after the scope. */
  lemma {:induction false} LastDotOfAppend(scope: string, name: string)
    requires DotFree(name)
    ensures LastDot(scope + "." + name) == |scope|
    ensures Parent(scope + "." + name) == scope
  {
    var s := scope + "." + name;
    var n := |name|;
    if n == 0 {
      assert s == scope + ".";
    } else {
      assert name[n - 1] in name && s[|s| - 1] == name[n - 1];
      assert s[..|s| - 1] == scope + "." + name[..n - 1];
      LastDotOfAppend(scope, name[..n - 1]);
    }
    assert s[..|scope|] == scope;
  }

  lemma QualifyParent(scope: string, name: string)
    requires DotFree(name)
    ensures scope == "" ==> LastDot(Qualify(scope, name)) == -1
    ensures scope != "" ==> LastDot(Qualify(scope, name)) == |scope| && Parent(Qualify(scope, name)) == scope
  {
    if scope != "" {
      LastDotOfAppend(scope, name);
    }
  }

  // ---------- C strings ----------

  predicate NulFree(s: string) {
    '\0' !in s
  }

  /** The C string in a string, `c_str()` as a key is compared: what comes before the first NUL. */
  function CStr(s: string): string {
    if s == "" || s[0] == '\0' then "" else [s[0]] + CStr(s[1..])
  }

  lemma {:induction false} CStrCuts(s: string)
    ensures NulFree(CStr(s)) && CStr(s) <= s
    ensures |CStr(s)| < |s| ==> s[|CStr(s)|] == '\0'
    ensures NulFree(s) <==> CStr(s) == s
  {
    if s != "" && s[0] != '\0' {
      assert s == [s[0]] + s[1..];
      CStrCuts(s[1..]);
    }
  }

  /** Cutting is decided by the first NUL alone. */
  lemma {:induction false} CStrPrefix(s: string, r: string)
    requires NulFree(r) && r <= s && (|r| < |s| ==> s[|r|] == '\0')
    ensures CStr(s) == r
  {
    if r != "" {
      assert r[0] in r && s[0] == r[0];
      CStrPrefix(s[1..], r[1..]);
    }
  }

  /** A NUL in the front part cuts off whatever is appended. */
  lemma CStrAppend(s: string, t: string)
    ensures CStr(s + t) == if NulFree(s) then s + CStr(t) else CStr(s)
  {
    CStrCuts(s);
    CStrCuts(t);
    if NulFree(s) {
      CStrPrefix(s + t, s + CStr(t));
    } else {
      CStrPrefix(s + t, CStr(s));
    }
  }

  // ---------- components ----------

  function Join(parts: seq<string>): (s: string)
    requires |parts| > 0
  {
    if |parts| == 1 then parts[0] else Join(parts[..|parts| - 1]) + "." + parts[|parts| - 1]
  }

  predicate Components(parts: seq<string>) {
    |parts| > 0 && forall p :: p in parts ==> DotFree(p)
  }

  /** Every string is the join of its dot-free components. */
  function Split(s: string): (parts: seq<string>)
    ensures Components(parts) && Join(parts) == s
    decreases |s|
  {
    var d := LastDot(s);
    if d < 0 then [s]
    else
      var head := Split(s[..d]);
      var parts := head + [s[d + 1..]];
      assert parts[..|parts| - 1] == head;
      assert s == s[..d] + "." + s[d + 1..];
      parts
  }

  /** Chopping a joined scope at its last dot drops exactly its last component. */
  lemma JoinChop(parts: seq<string>)
    requires Components(parts)
    ensures |parts| == 1 <==> LastDot(Join(parts)) == -1
    ensures |parts| > 1 ==> Components(parts[..|parts| - 1]) && Parent(Join(parts)) == Join(parts[..|parts| - 1])
  {
    if |parts| == 1 {
      assert parts[0] in parts;
      LastDotNone(parts[0]);
    } else {
      assert parts[|parts| - 1] in parts;
      LastDotOfAppend(Join(parts[..|parts| - 1]), parts[|parts| - 1]);
    }
  }

  // ---------- identifiers ----------

  predicate NameChar(c: char) {
    ('a' <= c <= 'z') || ('A' <= c <= 'Z') || ('0' <= c <= '9') || c == '_'
  }

  /** The names that ValidateSymbolName accepts. */
  predicate ValidName(s: string) {
    s != "" && forall c :: c in s ==> NameChar(c)
  }

  lemma ValidNameDotFree(s: string)
    requires ValidName(s)
    ensures DotFree(s) && NulFree(s)
  {
  }
}
