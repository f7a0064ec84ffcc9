/** Redaction of inspection output: repeated string replacement over nested
    values, and the payload it is used in. */
module Redaction {
  import opened Common

  const MARK: string := "[REDACTED]"

  // ---- str.replace ----

  ghost predicate OccursAt(t: string, s: string, i: int) {
    0 <= i && i + |t| <= |s| && s[i..i + |t|] == t
  }

  /** t is a substring of s. */
  ghost predicate Occurs(t: string, s: string) { exists i :: OccursAt(t, s, i) }

  /** The leftmost occurrence, if any. */
  function Find(s: string, t: string): Option<nat> {
    if |s| < |t| then None
    else if s[..|t|] == t then Some(0)
    else if s == "" then None
    else match Find(s[1..], t)
      case Some(i) => Some(i + 1)
      case None => None
  }

  /** `s.replace(t, "[REDACTED]")`: leftmost, non-overlapping. */
  function Replace(s: string, t: string): string
    requires t != ""
    decreases |s|
  {
    match Find(s, t)
    case None => s
    case Some(i) => FindMeaning(s, t); s[..i] + MARK + Replace(s[i + |t|..], t)
  }

  lemma {:induction false} FindMeaning(s: string, t: string)
    ensures Find(s, t).Some? ==> OccursAt(t, s, Find(s, t).value)
    ensures Find(s, t).Some? ==> forall i :: OccursAt(t, s, i) ==> Find(s, t).value <= i
    ensures Find(s, t).None? ==> !Occurs(t, s)
    decreases |s|
  {
    if |s| >= |t| && s[..|t|] != t && s != "" {
      FindMeaning(s[1..], t);
      forall i | OccursAt(t, s, i) ensures i > 0 && OccursAt(t, s[1..], i - 1) {
        assert s[0..|t|] == s[..|t|];
        assert s[1..][i - 1..i - 1 + |t|] == s[i..i + |t|];
      }
      if Find(s[1..], t).Some? {
        var j := Find(s[1..], t).value;
        assert s[1..][j..j + |t|] == s[j + 1..j + 1 + |t|];
      }
    }
  }

  function Join(parts: seq<string>, separator: string): string {
    if parts == [] then "" else if |parts| == 1 then parts[0] else parts[0] + separator + Join(parts[1..], separator)
  }

  ghost predicate LeftmostAt(t: string, s: string, n: int) {
    OccursAt(t, s, n) && forall i :: OccursAt(t, s, i) ==> n <= i
  }

  /** The parts of s between occurrences of t, each occurrence the leftmost one
      in what the ones before it leave. */
  ghost predicate Cuts(s: string, t: string, parts: seq<string>)
    decreases |parts|
  {
    && parts != []
    && if |parts| == 1 then s == parts[0] && !Occurs(t, s)
       else
         var n := |parts[0]|;
         && LeftmostAt(t, s, n) && parts[0] == s[..n]
         && Cuts(s[n + |t|..], t, parts[1..])
  }

  /** r is s with the occurrences of t replaced by marks, and nothing else. */
  ghost predicate Replaced(s: string, t: string, r: string) {
    exists parts :: Cuts(s, t, parts) && r == Join(parts, MARK)
  }

  /** The parts make up the text, and none of them contains what was cut out. */
  lemma {:induction false} CutsMeaning(s: string, t: string, parts: seq<string>)
    requires t != "" && Cuts(s, t, parts)
    ensures s == Join(parts, t)
    ensures forall k :: 0 <= k < |parts| ==> !Occurs(t, parts[k])
    decreases |parts|
  {
    if |parts| > 1 {
      var n := |parts[0]|;
      CutsMeaning(s[n + |t|..], t, parts[1..]);
      assert s == s[..n] + t + s[n + |t|..];
      if i :| OccursAt(t, parts[0], i) {
        assert s[..n] == s[0..n];
        Within(s, 0, n, i, i + |t|);
        assert OccursAt(t, s, i);
      }
    }
  }

  /** The parts are determined by the text. */
  lemma {:induction false} CutsUnique(s: string, t: string, parts: seq<string>, others: seq<string>)
    requires t != "" && Cuts(s, t, parts) && Cuts(s, t, others)
    ensures parts == others
    decreases |parts|
  {
    if |parts| > 1 && |others| > 1 {
      assert |parts[0]| == |others[0]|;
      CutsUnique(s[|parts[0]| + |t|..], t, parts[1..], others[1..]);
      assert parts == [parts[0]] + parts[1..] && others == [others[0]] + others[1..];
    } else {
      assert |parts| > 1 ==> Occurs(t, s);
      assert |others| > 1 ==> Occurs(t, s);
    }
  }

  /** Replacing exchanges the occurrences for marks and keeps everything between them. */
  lemma {:induction false} ReplaceMeaning(s: string, t: string) returns (parts: seq<string>)
    requires t != ""
    ensures Cuts(s, t, parts) && Replace(s, t) == Join(parts, MARK)
    decreases |s|
  {
    hide Occurs, OccursAt, LeftmostAt, Find, Cuts, Join;
    FindLeftmost(s, t);
    if Find(s, t).None? {
      parts := [s];
      CutsOnce(s, t);
    } else {
      var i := Find(s, t).value;
      var rest := ReplaceMeaning(s[i + |t|..], t);
      parts := [s[..i]] + rest;
      CutsOneMore(s, t, i, rest);
    }
  }

  lemma FindLeftmost(s: string, t: string)
    ensures match Find(s, t)
            case Some(i) => i + |t| <= |s| && LeftmostAt(t, s, i)
            case None => !Occurs(t, s)
  {
    FindMeaning(s, t);
    hide Find;
  }

  lemma CutsOnce(s: string, t: string)
    requires !Occurs(t, s)
    ensures Cuts(s, t, [s]) && Join([s], MARK) == s
  {}

  lemma CutsOneMore(s: string, t: string, i: nat, rest: seq<string>)
    requires i + |t| <= |s| && LeftmostAt(t, s, i) && Cuts(s[i + |t|..], t, rest)
    ensures Cuts(s, t, [s[..i]] + rest)
    ensures Join([s[..i]] + rest, MARK) == s[..i] + MARK + Join(rest, MARK)
  {
    hide OccursAt, LeftmostAt, Occurs;
    var parts := [s[..i]] + rest;
    assert parts[1..] == rest && |parts[0]| == i && rest != [];
  }

  lemma ReplaceExact(s: string, t: string, r: string)
    requires t != ""
    ensures Replaced(s, t, r) <==> r == Replace(s, t)
  {
    var parts := ReplaceMeaning(s, t);
    if others :| Cuts(s, t, others) && r == Join(others, MARK) { CutsUnique(s, t, parts, others); }
    hide Cuts, Join;
  }

  /** Neither text is inside the other, and they overlap on neither side. */
  ghost predicate Apart(t: string, m: string) {
    && !Occurs(t, m) && !Occurs(m, t)
    && (forall k :: 0 < k < |m| ==> !StartsWith(t, m[k..]))
    && (forall k :: 0 < k < |m| && k <= |t| ==> t[|t| - k..] != m[..k])
  }

  /** A secret that redaction can remove for good. */
  ghost predicate Removable(t: string) { t != "" && Apart(t, MARK) }

  /** A slice of a slice. */
  lemma Within(s: string, from: nat, to: nat, i: nat, j: nat)
    requires from <= to <= |s| && i <= j <= to - from
    ensures s[from..to][i..j] == s[from + i..from + j]
  {
    assert forall k :: 0 <= k < j - i ==> s[from..to][i..j][k] == s[from + i..from + j][k];
  }

  lemma OccursWider(t: string, s: string, from: nat, to: nat)
    requires from <= to <= |s| && Occurs(t, s[from..to])
    ensures Occurs(t, s)
  {
    var i :| OccursAt(t, s[from..to], i);
    Within(s, from, to, i, i + |t|);
    assert OccursAt(t, s, from + i);
  }

  /** An occurrence of a removable text lies entirely before or after a mark. */
  lemma OccursAroundMark(t: string, a: string, b: string)
    requires Removable(t) && Occurs(t, a + MARK + b)
    ensures Occurs(t, a) || Occurs(t, b)
  {
    hide Occurs, Apart;
    OccursAround(t, MARK, a, b);
  }

  lemma OccursAround(t: string, m: string, a: string, b: string)
    requires Apart(t, m) && Occurs(t, a + m + b)
    ensures Occurs(t, a) || Occurs(t, b)
  {
    hide Apart;
    var s, n := a + m + b, |a|;
    var i :| OccursAt(t, s, i);
    assert s[..n] == a && s[n..n + |m|] == m && s[n + |m|..] == b;
    if i + |t| <= n {
      Within(s, 0, n, i, i + |t|);
      assert OccursAt(t, a, i);
    } else if i >= n + |m| {
      Within(s, n + |m|, |s|, i - n - |m|, i - n - |m| + |t|);
      assert OccursAt(t, b, i - n - |m|);
    } else {
      OverlapRefused(t, m, s, n, i);
    }
  }

  lemma OverlapRefused(t: string, m: string, s: string, n: nat, i: nat)
    requires OccursAt(t, s, i) && OccursAt(m, s, n) && n < i + |t| && i < n + |m|
    ensures !Apart(t, m)
  {
    var z := |m|;
    if n <= i && i + |t| <= n + z {
      Within(s, n, n + z, i - n, i - n + |t|);
      assert OccursAt(t, m, i - n);
    } else if i <= n && n + z <= i + |t| {
      Within(s, i, i + |t|, n - i, n - i + z);
      assert OccursAt(m, t, n - i);
    } else if i < n {
      OverlapBefore(t, m, s, n, i);
    } else {
      OverlapAfter(t, m, s, n, i);
    }
  }

  lemma OverlapBefore(t: string, m: string, s: string, n: nat, i: nat)
    requires OccursAt(t, s, i) && OccursAt(m, s, n) && i < n < i + |t| < n + |m|
    ensures !Apart(t, m)
  {
    var k := i + |t| - n;
    Within(s, i, i + |t|, |t| - k, |t|);
    Within(s, n, n + |m|, 0, k);
    assert t[|t| - k..] == t[|t| - k..|t|] && m[..k] == m[0..k];
  }

  lemma OverlapAfter(t: string, m: string, s: string, n: nat, i: nat)
    requires OccursAt(t, s, i) && OccursAt(m, s, n) && n < i < n + |m| < i + |t|
    ensures !Apart(t, m)
  {
    var k := i - n;
    Within(s, i, i + |t|, 0, |m| - k);
    Within(s, n, n + |m|, k, |m|);
    assert t[..|m| - k] == t[0..|m| - k] && m[k..] == m[k..|m|];
    assert StartsWith(t, m[k..]);
  }

  /** Replacing a removable secret leaves no occurrence of it. */
  lemma {:induction false} ReplaceRemoves(s: string, t: string)
    requires Removable(t)
    ensures !Occurs(t, Replace(s, t))
    decreases |s|
  {
    FindMeaning(s, t);
    if Find(s, t).Some? {
      var i := Find(s, t).value;
      var rest := s[i + |t|..];
      ReplaceRemoves(rest, t);
      if Occurs(t, s[..i]) {
        var j :| OccursAt(t, s[..i], j);
        assert s[..i] == s[0..i];
        Within(s, 0, i, j, j + |t|);
        assert OccursAt(t, s, j);
      }
      if Occurs(t, Replace(s, t)) { OccursAroundMark(t, s[..i], Replace(rest, t)); }
    }
  }

  /** Replacing any text brings no removable secret back. */
  lemma {:induction false} ReplaceKeepsAway(s: string, t: string, other: string)
    requires t != "" && Removable(other) && !Occurs(other, s)
    ensures !Occurs(other, Replace(s, t))
    decreases |s|
  {
    FindMeaning(s, t);
    if Find(s, t).Some? {
      var i := Find(s, t).value;
      var rest := s[i + |t|..];
      assert rest == s[i + |t|..|s|] && s[..i] == s[0..i];
      if Occurs(other, rest) { OccursWider(other, s, i + |t|, |s|); }
      if Occurs(other, s[..i]) { OccursWider(other, s, 0, i); }
      ReplaceKeepsAway(rest, t, other);
      if Occurs(other, Replace(s, t)) { OccursAroundMark(other, s[..i], Replace(rest, t)); }
    }
  }

  /** Secrets without square brackets that are not part of the word in the mark
      are removable. */
  lemma PlainSecretRemovable(t: string)
    requires t != "" && '[' !in t && ']' !in t && !Occurs(t, "REDACTED")
    ensures Removable(t)
  {
    var word := "REDACTED";
    assert MARK == ['['] + word + [']'];
    NotInside(t, word);
    BracketRefused(t);
    forall k | 0 < k < |MARK| ensures !StartsWith(t, MARK[k..]) {
      if StartsWith(t, MARK[k..]) { EndIncluded(t, MARK, k); }
    }
    hide Occurs, StartsWith;
  }

  lemma NotInside(t: string, word: string)
    requires t != "" && '[' !in t && ']' !in t && !Occurs(t, word)
    ensures !Occurs(t, ['['] + word + [']'])
  {
    var m := ['['] + word + [']'];
    assert t[0] != '[' && t[|t| - 1] != ']';
    forall i | 0 <= i <= |m| - |t| ensures !OccursAt(t, m, i) {
      var part := m[i..i + |t|];
      assert part[0] == m[i] && part[|t| - 1] == m[i + |t| - 1];
      assert 0 < i && i + |t| < |m| ==> part == word[i - 1..i - 1 + |t|];
      assert 0 < i && i + |t| < |m| ==> !OccursAt(t, word, i - 1);
    }
  }

  lemma EndIncluded(t: string, m: string, k: nat)
    requires k < |m| && StartsWith(t, m[k..])
    ensures m[|m| - 1] in t
  {
    assert t[..|m| - k][|m| - k - 1] == t[|m| - k - 1] == m[|m| - 1];
  }

  /** Without an opening bracket nothing can contain a mark or end like one begins. */
  lemma BracketRefused(t: string)
    requires '[' !in t
    ensures !Occurs(MARK, t)
    ensures forall k :: 0 < k < |MARK| && k <= |t| ==> t[|t| - k..] != MARK[..k]
  {
    assert forall i :: OccursAt(MARK, t, i) ==> t[i..i + |MARK|][0] == t[i];
    forall k | 0 < k < |MARK| && k <= |t| ensures t[|t| - k..] != MARK[..k] {
      assert t[|t| - k..][0] == t[|t| - k] && MARK[..k][0] == '[';
    }
  }

  /** For a secret without an opening bracket being removable is exactly what
      makes the replacement complete on every text. */
  lemma RemovableExact(t: string)
    requires t != "" && '[' !in t
    ensures Removable(t) <==> forall s :: !Occurs(t, Replace(s, t))
  {
    hide Occurs, Replace, Removable;
    if Removable(t) {
      forall s ensures !Occurs(t, Replace(s, t)) { ReplaceRemoves(s, t); }
    } else {
      var s := ReplacementCanSpell(t);
      assert Occurs(t, Replace(s, t));
    }
  }

  lemma ReplacementCanSpell(t: string) returns (s: string)
    requires t != "" && '[' !in t && !Removable(t)
    ensures Occurs(t, Replace(s, t))
  {
    BracketRefused(t);
    if Occurs(t, MARK) {
      s := t;
      ReplaceFirst(t, "");
      assert t + "" == t && MARK + "" == MARK;
    } else {
      var k :| 0 < k < |MARK| && StartsWith(t, MARK[k..]);
      s := t + t[|MARK| - k..];
      ReplaceFirst(t, t[|MARK| - k..]);
      Joined(MARK, t, k);
    }
  }

  /** A text that begins with an end of m occurs in m and the rest of it. */
  lemma Joined(m: string, t: string, k: nat)
    requires k < |m| && StartsWith(t, m[k..])
    ensures Occurs(t, m + t[|m| - k..])
  {
    var u := t[|m| - k..];
    assert (m + u)[k..k + |t|] == m[k..] + u == t;
    assert OccursAt(t, m + u, k);
  }

  lemma ReplaceFirst(t: string, u: string)
    requires t != "" && |u| < |t|
    ensures Replace(t + u, t) == MARK + u
  {
    assert (t + u)[..|t|] == t && (t + u)[|t|..] == u;
    assert Find(t + u, t) == Some(0) && Find(u, t) == None;
    assert (t + u)[..0] + MARK == MARK;
  }

  // ---- one string, all secrets in order ----

  function Redact(s: string, secrets: seq<string>): string {
    if secrets == [] then s else
      var before := Redact(s, secrets[..|secrets| - 1]);
      if secrets[|secrets| - 1] == "" then before else Replace(before, secrets[|secrets| - 1])
  }

  /** r is s after the replacements of the non-empty secrets, in order. */
  ghost predicate Replacements(s: string, secrets: seq<string>, r: string) {
    if secrets == [] then r == s else
      var last := secrets[|secrets| - 1];
      exists before :: Replacements(s, secrets[..|secrets| - 1], before) && OneReplacement(before, last, r)
  }

  ghost predicate OneReplacement(s: string, t: string, r: string) { if t == "" then r == s else Replaced(s, t, r) }

  lemma {:induction false} RedactExact(s: string, secrets: seq<string>, r: string)
    ensures Replacements(s, secrets, r) <==> r == Redact(s, secrets)
  {
    if secrets != [] {
      var front, last := secrets[..|secrets| - 1], secrets[|secrets| - 1];
      var before := Redact(s, front);
      RedactExact(s, front, before);
      if last != "" { ReplaceExact(before, last, r); }
      assert OneReplacement(before, last, r) <==> r == Redact(s, secrets);
      hide OneReplacement, Replace;
      forall other | Replacements(s, front, other) ensures other == before {
        RedactExact(s, front, other);
      }
      hide Redact;
    }
  }

  method RedactString(s: string, secrets: seq<string>) returns (value: string)
    ensures value == Redact(s, secrets) && Replacements(s, secrets, value)
    // for one secret: all the text between its occurrences is kept
    ensures |secrets| == 1 && secrets[0] != "" ==>
              exists parts :: Cuts(s, secrets[0], parts) && value == Join(parts, MARK)
  {
    RedactExact(s, secrets, Redact(s, secrets));
    if |secrets| == 1 && secrets[0] != "" {
      assert secrets[..0] == [] && Redact(s, []) == s;
      var parts := ReplaceMeaning(s, secrets[0]);
    }
    hide Replacements, Cuts, Join;
    value := s;
    for n := 0 to |secrets|
      invariant value == Redact(s, secrets[..n])
    {
      assert secrets[..n + 1][..n] == secrets[..n];
      if secrets[n] != "" {
        value := Replace(value, secrets[n]);
      }
    }
    assert secrets[..|secrets|] == secrets;
  }

  ghost predicate AllRemovable(secrets: seq<string>) {
    forall t :: t in secrets && t != "" ==> Removable(t)
  }

  /** No non-empty secret occurs in s. */
  ghost predicate Free(s: string, secrets: seq<string>) {
    forall t :: t in secrets && t != "" ==> !Occurs(t, s)
  }

  /** After the replacements, one after the other, no secret is left - not even
      one that an earlier or later replacement could have put together. */
  lemma {:induction false} RedactComplete(s: string, secrets: seq<string>)
    requires AllRemovable(secrets)
    ensures Free(Redact(s, secrets), secrets)
  {
    hide Replace, Occurs, Removable;
    if secrets != [] {
      var front, last := secrets[..|secrets| - 1], secrets[|secrets| - 1];
      RedactComplete(s, front);
      var before := Redact(s, front);
      forall t | t in secrets && t != "" ensures !Occurs(t, Redact(s, secrets)) {
        assert t == last || t in front;
        if last != "" {
          if t == last { ReplaceRemoves(before, last); } else { ReplaceKeepsAway(before, last, t); }
        }
      }
    }
  }

  lemma {:induction false} RedactMinimal(s: string, secrets: seq<string>)
    requires Free(s, secrets)
    ensures Redact(s, secrets) == s
  {
    hide Occurs;
    if secrets != [] {
      var front, last := secrets[..|secrets| - 1], secrets[|secrets| - 1];
      assert forall t :: t in front ==> t in secrets;
      assert last in secrets;
      RedactMinimal(s, front);
      FindMeaning(s, last);
      if last != "" { FoundOccurs(s, last); }
    }
  }

  lemma FoundOccurs(s: string, t: string)
    requires t != "" && !Occurs(t, s)
    ensures Replace(s, t) == s
  {
    FindMeaning(s, t);
  }

  /** A string changes exactly when a secret occurs in it. */
  lemma RedactChanges(s: string, secrets: seq<string>)
    requires AllRemovable(secrets)
    ensures Redact(s, secrets) == s <==> Free(s, secrets)
  {
    RedactComplete(s, secrets);
    if Free(s, secrets) { RedactMinimal(s, secrets); }
  }

  // ---- nested values ----

  datatype Key = Name(s: string) | Number(n: int)

  datatype Entry = Entry(key: Key, value: Value)

  /** Values the inspection can meet. */
  datatype Value =
    | Nothing
    | Flag(b: bool)
    | Whole(i: int)
    | Decimal(x: real)
    | Text(s: string)
    | Raw(bytes: Bytes)
    | Tuple(items: seq<Value>)
    | List(items: seq<Value>)
    | Dict(entries: seq<Entry>)

  /** `str` of an integer key. */
  type Printer = int -> string

  function KeyText(p: Printer, k: Key): string {
    match k
    case Name(s) => s
    case Number(n) => p(n)
  }

  predicate DroppedKey(name: string) { Lower(name) in {"local_key", "server_token", "api_token", "token"} }

  /** Assignment to a dict: an existing key keeps its place. */
  function Put(entries: seq<Entry>, name: string, v: Value): seq<Entry> {
    if entries == [] then [Entry(Name(name), v)]
    else if entries[0].key == Name(name) then [Entry(Name(name), v)] + entries[1..]
    else [entries[0]] + Put(entries[1..], name, v)
  }

  /** `_sanitize_value` */
  function Sanitize(p: Printer, v: Value, secrets: seq<string>): Value
    decreases v, 0
  {
    match v
    case Dict(entries) => Dict(SanitizeEntries(p, entries, secrets))
    case Tuple(items) => List(SanitizeItems(p, items, secrets))
    case List(items) => List(SanitizeItems(p, items, secrets))
    case Text(s) => Text(Redact(s, secrets))
    case _ => v
  }

  function SanitizeItems(p: Printer, items: seq<Value>, secrets: seq<string>): (r: seq<Value>)
    ensures |r| == |items|
    decreases items, |items|
  {
    if items == [] then []
    else SanitizeItems(p, items[..|items| - 1], secrets) + [Sanitize(p, items[|items| - 1], secrets)]
  }

  function SanitizeEntries(p: Printer, entries: seq<Entry>, secrets: seq<string>): seq<Entry>
    decreases entries, |entries|
  {
    if entries == [] then [] else
      var before := SanitizeEntries(p, entries[..|entries| - 1], secrets);
      var last := entries[|entries| - 1];
      var name := KeyText(p, last.key);
      assert last.value < last;
      if DroppedKey(name) then before else Put(before, name, Sanitize(p, last.value, secrets))
  }

  // ---- completeness ----

  /** No string leaf contains a secret, and no key is one of the dropped names. */
  ghost predicate Clean(v: Value, secrets: seq<string>)
    decreases v
  {
    match v
    case Text(s) => Free(s, secrets)
    case Tuple(items) => forall i :: 0 <= i < |items| ==> Clean(items[i], secrets)
    case List(items) => forall i :: 0 <= i < |items| ==> Clean(items[i], secrets)
    case Dict(entries) => forall i :: 0 <= i < |entries| ==>
      CleanKey(entries[i].key) && Clean(entries[i].value, secrets)
    case _ => true
  }

  predicate CleanKey(k: Key) { k.Name? ==> !DroppedKey(k.s) }

  ghost predicate CleanEntries(entries: seq<Entry>, secrets: seq<string>) {
    forall i :: 0 <= i < |entries| ==> CleanKey(entries[i].key) && Clean(entries[i].value, secrets)
  }

  lemma {:induction false} PutClean(entries: seq<Entry>, name: string, v: Value, secrets: seq<string>)
    requires CleanEntries(entries, secrets) && !DroppedKey(name) && Clean(v, secrets)
    ensures CleanEntries(Put(entries, name, v), secrets)
  {
    hide Clean, DroppedKey;
    if entries != [] && entries[0].key != Name(name) {
      PutClean(entries[1..], name, v, secrets);
    }
  }

  /** Redaction is complete: whatever the value, no string leaf of the output
      contains any of the secrets, and no dropped key is left at any depth. */
  lemma {:induction false} SanitizeComplete(p: Printer, v: Value, secrets: seq<string>)
    requires AllRemovable(secrets)
    ensures Clean(Sanitize(p, v, secrets), secrets)
    decreases v, 0
  {
    hide Redact, Free, Removable, DroppedKey;
    match v
    case Dict(entries) => SanitizeEntriesComplete(p, entries, secrets);
    case Tuple(items) => SanitizeItemsComplete(p, items, secrets);
    case List(items) => SanitizeItemsComplete(p, items, secrets);
    case Text(s) => RedactComplete(s, secrets);
    case _ =>
  }

  lemma {:induction false} SanitizeItemsComplete(p: Printer, items: seq<Value>, secrets: seq<string>)
    requires AllRemovable(secrets)
    ensures forall i :: 0 <= i < |items| ==> Clean(SanitizeItems(p, items, secrets)[i], secrets)
    decreases items, |items|
  {
    hide Clean, Removable;
    if items != [] {
      SanitizeItemsComplete(p, items[..|items| - 1], secrets);
      SanitizeComplete(p, items[|items| - 1], secrets);
    }
  }

  lemma {:induction false} SanitizeEntriesComplete(p: Printer, entries: seq<Entry>, secrets: seq<string>)
    requires AllRemovable(secrets)
    ensures CleanEntries(SanitizeEntries(p, entries, secrets), secrets)
    decreases entries, |entries|
  {
    hide Clean, Removable, DroppedKey, Put;
    if entries != [] {
      var front, last := entries[..|entries| - 1], entries[|entries| - 1];
      assert last.value < last;
      SanitizeEntriesComplete(p, front, secrets);
      SanitizeComplete(p, last.value, secrets);
      if !DroppedKey(KeyText(p, last.key)) {
        PutClean(SanitizeEntries(p, front, secrets), KeyText(p, last.key), Sanitize(p, last.value, secrets), secrets);
      }
    }
  }

  // ---- minimality ----

  /** Already in the form the output has: string keys, each once, and lists. */
  ghost predicate Plain(v: Value)
    decreases v
  {
    match v
    case Tuple(_) => false
    case List(items) => forall i :: 0 <= i < |items| ==> Plain(items[i])
    case Dict(entries) => Distinct(entries) && forall i :: 0 <= i < |entries| ==> Plain(entries[i].value)
    case _ => true
  }

  predicate Distinct(entries: seq<Entry>) {
    && (forall i :: 0 <= i < |entries| ==> entries[i].key.Name?)
    && (forall i, j :: 0 <= i < j < |entries| ==> entries[i].key != entries[j].key)
  }

  /** The conversion of keys to strings and of tuples to lists, and nothing else. */
  function Converted(p: Printer, v: Value): Value
    decreases v, 0
  {
    match v
    case Dict(entries) => Dict(ConvertedEntries(p, entries))
    case Tuple(items) => List(ConvertedItems(p, items))
    case List(items) => List(ConvertedItems(p, items))
    case _ => v
  }

  function ConvertedItems(p: Printer, items: seq<Value>): seq<Value>
    decreases items, |items|
  {
    if items == [] then []
    else ConvertedItems(p, items[..|items| - 1]) + [Converted(p, items[|items| - 1])]
  }

  function ConvertedEntries(p: Printer, entries: seq<Entry>): seq<Entry>
    decreases entries, |entries|
  {
    if entries == [] then [] else
      var last := entries[|entries| - 1];
      assert last.value < last;
      Put(ConvertedEntries(p, entries[..|entries| - 1]), KeyText(p, last.key), Converted(p, last.value))
  }

  /** No string leaf contains a secret and no key is dropped, anywhere. */
  ghost predicate Untouched(p: Printer, v: Value, secrets: seq<string>)
    decreases v
  {
    match v
    case Text(s) => Free(s, secrets)
    case Tuple(items) => forall i :: 0 <= i < |items| ==> Untouched(p, items[i], secrets)
    case List(items) => forall i :: 0 <= i < |items| ==> Untouched(p, items[i], secrets)
    case Dict(entries) =>
      forall i :: 0 <= i < |entries| ==>
        !DroppedKey(KeyText(p, entries[i].key)) && Untouched(p, entries[i].value, secrets)
    case _ => true
  }

  ghost predicate UntouchedEntries(p: Printer, entries: seq<Entry>, secrets: seq<string>) {
    forall i :: 0 <= i < |entries| ==>
      !DroppedKey(KeyText(p, entries[i].key)) && Untouched(p, entries[i].value, secrets)
  }

  /** Redaction is minimal: a value with no secret and no dropped key comes
      back changed by the conversion alone. */
  lemma {:induction false} SanitizeMinimal(p: Printer, v: Value, secrets: seq<string>)
    requires Untouched(p, v, secrets)
    ensures Sanitize(p, v, secrets) == Converted(p, v)
    decreases v, 0
  {
    hide Redact, Free, DroppedKey;
    match v
    case Dict(entries) => SanitizeEntriesMinimal(p, entries, secrets);
    case Tuple(items) => SanitizeItemsMinimal(p, items, secrets);
    case List(items) => SanitizeItemsMinimal(p, items, secrets);
    case Text(s) => RedactMinimal(s, secrets);
    case _ =>
  }

  lemma {:induction false} SanitizeItemsMinimal(p: Printer, items: seq<Value>, secrets: seq<string>)
    requires forall i :: 0 <= i < |items| ==> Untouched(p, items[i], secrets)
    ensures SanitizeItems(p, items, secrets) == ConvertedItems(p, items)
    decreases items, |items|
  {
    hide Untouched;
    if items != [] {
      SanitizeItemsMinimal(p, items[..|items| - 1], secrets);
      SanitizeMinimal(p, items[|items| - 1], secrets);
    }
  }

  lemma {:induction false} SanitizeEntriesMinimal(p: Printer, entries: seq<Entry>, secrets: seq<string>)
    requires UntouchedEntries(p, entries, secrets)
    ensures SanitizeEntries(p, entries, secrets) == ConvertedEntries(p, entries)
    decreases entries, |entries|
  {
    hide Untouched, DroppedKey, Put;
    if entries != [] {
      var front, last := entries[..|entries| - 1], entries[|entries| - 1];
      assert last.value < last;
      SanitizeEntriesMinimal(p, front, secrets);
      SanitizeMinimal(p, last.value, secrets);
    }
  }

  /** The conversion changes nothing but keys and tuples. */
  lemma {:induction false} ConvertedPlain(p: Printer, v: Value)
    requires Plain(v)
    ensures Converted(p, v) == v
    decreases v, 0
  {
    match v
    case Dict(entries) => ConvertedEntriesPlain(p, entries);
    case List(items) => ConvertedItemsPlain(p, items);
    case _ =>
  }

  lemma {:induction false} ConvertedItemsPlain(p: Printer, items: seq<Value>)
    requires forall i :: 0 <= i < |items| ==> Plain(items[i])
    ensures ConvertedItems(p, items) == items
    decreases items, |items|
  {
    hide Plain, Converted;
    if items != [] {
      ConvertedItemsPlain(p, items[..|items| - 1]);
      ConvertedPlain(p, items[|items| - 1]);
      assert items == items[..|items| - 1] + [items[|items| - 1]];
    }
  }

  lemma {:induction false} ConvertedEntriesPlain(p: Printer, entries: seq<Entry>)
    requires Distinct(entries) && forall i :: 0 <= i < |entries| ==> Plain(entries[i].value)
    ensures ConvertedEntries(p, entries) == entries
    decreases entries, |entries|
  {
    hide Plain;
    if entries != [] {
      var front, last := entries[..|entries| - 1], entries[|entries| - 1];
      assert last.value < last;
      ConvertedEntriesPlain(p, front);
      ConvertedPlain(p, last.value);
      PutNew(front, last.key.s, last.value);
    }
  }

  lemma {:induction false} PutNew(entries: seq<Entry>, name: string, v: Value)
    requires forall i :: 0 <= i < |entries| ==> entries[i].key != Name(name)
    ensures Put(entries, name, v) == entries + [Entry(Name(name), v)]
  {
    if entries != [] {
      PutNew(entries[1..], name, v);
      assert entries == [entries[0]] + entries[1..];
    }
  }

  /** What redaction produces is in the plain form ... */
  lemma {:induction false} SanitizePlain(p: Printer, v: Value, secrets: seq<string>)
    ensures Plain(Sanitize(p, v, secrets))
    decreases v, 0
  {
    match v
    case Dict(entries) => SanitizeEntriesPlain(p, entries, secrets);
    case Tuple(items) => SanitizeItemsPlain(p, items, secrets);
    case List(items) => SanitizeItemsPlain(p, items, secrets);
    case _ =>
  }

  lemma {:induction false} SanitizeItemsPlain(p: Printer, items: seq<Value>, secrets: seq<string>)
    ensures forall i :: 0 <= i < |items| ==> Plain(SanitizeItems(p, items, secrets)[i])
    decreases items, |items|
  {
    hide Plain;
    if items != [] {
      SanitizeItemsPlain(p, items[..|items| - 1], secrets);
      SanitizePlain(p, items[|items| - 1], secrets);
    }
  }

  ghost predicate PlainEntries(entries: seq<Entry>) {
    Distinct(entries) && forall i :: 0 <= i < |entries| ==> Plain(entries[i].value)
  }

  lemma {:induction false} SanitizeEntriesPlain(p: Printer, entries: seq<Entry>, secrets: seq<string>)
    ensures PlainEntries(SanitizeEntries(p, entries, secrets))
    decreases entries, |entries|
  {
    hide Plain, DroppedKey, Put;
    if entries != [] {
      var front, last := entries[..|entries| - 1], entries[|entries| - 1];
      assert last.value < last;
      SanitizeEntriesPlain(p, front, secrets);
      SanitizePlain(p, last.value, secrets);
      PutPlain(SanitizeEntries(p, front, secrets), KeyText(p, last.key), Sanitize(p, last.value, secrets));
    }
  }

  lemma {:induction false} PutPlain(entries: seq<Entry>, name: string, v: Value)
    requires PlainEntries(entries) && Plain(v)
    ensures PlainEntries(Put(entries, name, v))
    ensures forall e :: e in Put(entries, name, v) ==> e == Entry(Name(name), v) || e in entries
  {
    hide Plain;
    if entries != [] && entries[0].key != Name(name) {
      var rest := entries[1..];
      PutPlain(rest, name, v);
      var r := Put(rest, name, v);
      forall j | 0 <= j < |r| ensures r[j].key != entries[0].key { assert r[j] in r; }
    }
  }

  /** ... and free of secrets, so redacting again changes nothing. */
  lemma SanitizeIdempotent(p: Printer, v: Value, secrets: seq<string>)
    requires AllRemovable(secrets)
    ensures Sanitize(p, Sanitize(p, v, secrets), secrets) == Sanitize(p, v, secrets)
  {
    var once := Sanitize(p, v, secrets);
    SanitizeComplete(p, v, secrets);
    SanitizePlain(p, v, secrets);
    CleanUntouched(p, once, secrets);
    SanitizeMinimal(p, once, secrets);
    ConvertedPlain(p, once);
  }

  lemma {:induction false} CleanUntouched(p: Printer, v: Value, secrets: seq<string>)
    requires Clean(v, secrets) && Plain(v)
    ensures Untouched(p, v, secrets)
    decreases v
  {
    match v
    case Dict(entries) =>
      forall i | 0 <= i < |entries|
        ensures !DroppedKey(KeyText(p, entries[i].key)) && Untouched(p, entries[i].value, secrets)
      {
        CleanUntouched(p, entries[i].value, secrets);
      }
    case List(items) =>
      forall i | 0 <= i < |items| ensures Untouched(p, items[i], secrets) {
        CleanUntouched(p, items[i], secrets);
      }
    case _ =>
  }

  // ---- what the output is ----

  /** w is v with the replacements made in every string and lists for tuples;
      an object keeps its surviving entries. */
  ghost predicate IsRedaction(p: Printer, v: Value, secrets: seq<string>, w: Value)
    decreases v, 2
  {
    match v
    case Text(s) => w.Text? && Replacements(s, secrets, w.s)
    case Tuple(items) => w.List? && AreRedactions(p, v, items, secrets, w.items)
    case List(items) => w.List? && AreRedactions(p, v, items, secrets, w.items)
    case Dict(entries) => w.Dict? && SurvivorsRedacted(p, v, entries, secrets, w.entries)
    case _ => w == v
  }

  /** Each key occurs once; the keys are those of the survivors, with their values redacted. */
  ghost predicate SurvivorsRedacted(p: Printer, v: Value, entries: seq<Entry>, secrets: seq<string>, w: seq<Entry>)
    requires v == Dict(entries)
    decreases v, 1
  {
    && Distinct(w)
    && (forall k :: 0 <= k < |w| ==> FromKey(p, entries, w[k]))
    && (forall i :: 0 <= i < |entries| && Survives(p, entries, i) ==> RedactedIn(p, v, entries, secrets, w, i))
  }

  ghost predicate FromKey(p: Printer, entries: seq<Entry>, e: Entry) {
    exists i :: 0 <= i < |entries| && Survives(p, entries, i) && e.key == Name(KeyText(p, entries[i].key))
  }

  ghost predicate RedactedIn(p: Printer, v: Value, entries: seq<Entry>, secrets: seq<string>, w: seq<Entry>, i: int)
    requires v == Dict(entries) && 0 <= i < |entries|
    decreases v, 0
  {
    exists k :: 0 <= k < |w| && w[k].key == Name(KeyText(p, entries[i].key))
                && IsRedaction(p, entries[i].value, secrets, w[k].value)
  }

  ghost predicate AreRedactions(p: Printer, v: Value, items: seq<Value>, secrets: seq<string>, w: seq<Value>)
    requires v == Tuple(items) || v == List(items)
    decreases v, 0
  {
    |w| == |items| && forall i :: 0 <= i < |items| ==> IsRedaction(p, items[i], secrets, w[i])
  }

  /** The output of the redaction is exactly that, at every depth. */
  lemma {:induction false} SanitizeMeaning(p: Printer, v: Value, secrets: seq<string>)
    ensures IsRedaction(p, v, secrets, Sanitize(p, v, secrets))
    decreases v, 1
  {
    hide Survives, Redact, Replacements, SanitizeEntries, KeyText, Distinct;
    match v
    case Text(s) => RedactExact(s, secrets, Redact(s, secrets));
    case Tuple(items) => ItemsMeaning(p, v, items, secrets);
    case List(items) => ItemsMeaning(p, v, items, secrets);
    case Dict(entries) => EntriesMeaning(p, v, entries, secrets);
    case _ =>
  }

  lemma {:induction false} EntriesMeaning(p: Printer, v: Value, entries: seq<Entry>, secrets: seq<string>)
    requires v == Dict(entries)
    ensures SurvivorsRedacted(p, v, entries, secrets, SanitizeEntries(p, entries, secrets))
    decreases v, 0
  {
    hide Survives, Kept, SanitizeEntries, KeyText, Plain, Distinct, Replacements;
    var w := SanitizeEntries(p, entries, secrets);
    SanitizeEntriesPlain(p, entries, secrets);
    forall i: int | 0 <= i < |entries| && Survives(p, entries, i) ensures RedactedIn(p, v, entries, secrets, w, i) {
      SanitizeMeaning(p, entries[i].value, secrets);
      var k := KeptAt(p, entries, secrets, i);
    }
    forall k | 0 <= k < |w| ensures FromKey(p, entries, w[k]) {
      var i := KeptFrom(p, entries, secrets, k);
    }
  }

  lemma KeptAt(p: Printer, entries: seq<Entry>, secrets: seq<string>, i: nat) returns (k: nat)
    requires i < |entries| && Survives(p, entries, i)
    ensures var w := SanitizeEntries(p, entries, secrets);
            && k < |w| && w[k].key == Name(KeyText(p, entries[i].key))
            && w[k].value == Sanitize(p, entries[i].value, secrets)
  {
    hide Survives, Sanitize, SanitizeEntries, KeyText;
    var w := SanitizeEntries(p, entries, secrets);
    SurvivorsKept(p, entries, secrets, Kept(p, entries[i], secrets));
    assert Kept(p, entries[i], secrets) in w;
    k :| 0 <= k < |w| && w[k] == Kept(p, entries[i], secrets);
  }

  lemma KeptFrom(p: Printer, entries: seq<Entry>, secrets: seq<string>, k: nat) returns (i: nat)
    requires k < |SanitizeEntries(p, entries, secrets)|
    ensures i < |entries| && Survives(p, entries, i)
    ensures SanitizeEntries(p, entries, secrets)[k].key == Name(KeyText(p, entries[i].key))
  {
    hide Survives, Sanitize, SanitizeEntries, KeyText;
    var e := SanitizeEntries(p, entries, secrets)[k];
    SurvivorsKept(p, entries, secrets, e);
    i :| 0 <= i < |entries| && Survives(p, entries, i) && e == Kept(p, entries[i], secrets);
  }

  lemma {:induction false} ItemsMeaning(p: Printer, v: Value, items: seq<Value>, secrets: seq<string>)
    requires v == Tuple(items) || v == List(items)
    ensures AreRedactions(p, v, items, secrets, SanitizeItems(p, items, secrets))
    decreases v, 0
  {
    hide IsRedaction, Sanitize, SanitizeItems;
    forall i | 0 <= i < |items| ensures IsRedaction(p, items[i], secrets, SanitizeItems(p, items, secrets)[i]) {
      ItemAt(p, items, secrets, i);
      SanitizeMeaning(p, items[i], secrets);
    }
  }

  /** The names that are dropped, in any case of letter. */
  lemma DroppedNames()
    ensures DroppedKey("local_key") && DroppedKey("Server_Token") && DroppedKey("API_TOKEN") && DroppedKey("token")
  {
    assert Lower("Server_Token") == "server_token" && Lower("API_TOKEN") == "api_token";
    assert Lower("local_key") == "local_key" && Lower("token") == "token";
  }

  // ---- the inspection payload ----

  /** `_value_type` */
  function TypeName(v: Value): string {
    match v
    case Nothing => "null"
    case Flag(_) => "bool"
    case Whole(_) => "int"
    case Decimal(_) => "float"
    case Text(_) => "str"
    case Dict(_) => "object"
    case Tuple(_) => "array"
    case List(_) => "array"
    case Raw(_) => "unknown"
  }

  datatype DataPoint = DataPoint(index: int, value: Value)

  function DpEntry(p: Printer, dp: DataPoint, secrets: seq<string>): Value {
    Dict([Entry(Name("index"), Whole(dp.index)),
          Entry(Name("type"), Text(TypeName(dp.value))),
          Entry(Name("value"), Sanitize(p, dp.value, secrets))])
  }

  /** `_inspection_payload`; the data points come in the order of their indexes. */
  function Inspection(p: Printer, ip: string, deviceId: string, version: string, dps: seq<DataPoint>,
                      secrets: seq<string>): Value {
    Dict([Entry(Name("device_id"), Sanitize(p, Text(deviceId), secrets)),
          Entry(Name("ip"), Sanitize(p, Text(ip), secrets)),
          Entry(Name("protocol_version"), Sanitize(p, Text(version), secrets)),
          Entry(Name("dps"), List(seq(|dps|, k requires 0 <= k < |dps| => DpEntry(p, dps[k], secrets))))])
  }

  /** The whole printed payload is clean, for secrets longer than the type
      names it adds - a Tuya local key has 16 characters. */
  lemma InspectionClean(p: Printer, ip: string, deviceId: string, version: string, dps: seq<DataPoint>,
                        secrets: seq<string>)
    requires AllRemovable(secrets) && forall t :: t in secrets && t != "" ==> |t| > 7
    ensures Clean(Inspection(p, ip, deviceId, version, dps, secrets), secrets)
  {
    hide DroppedKey, Sanitize, Removable, DpEntry, Free;
    forall k | 0 <= k < |dps| ensures Clean(DpEntry(p, dps[k], secrets), secrets) {
      DpEntryClean(p, dps[k], secrets);
    }
    SanitizeComplete(p, Text(deviceId), secrets);
    SanitizeComplete(p, Text(ip), secrets);
    SanitizeComplete(p, Text(version), secrets);
    AddedKeys();
  }

  lemma DpEntryClean(p: Printer, dp: DataPoint, secrets: seq<string>)
    requires AllRemovable(secrets) && forall t :: t in secrets && t != "" ==> |t| > 7
    ensures Clean(DpEntry(p, dp, secrets), secrets)
  {
    hide DroppedKey, Sanitize, Removable;
    SanitizeComplete(p, dp.value, secrets);
    AddedKeys();
  }

  lemma AddedKeys()
    ensures !DroppedKey("device_id") && !DroppedKey("ip") && !DroppedKey("protocol_version") && !DroppedKey("dps")
    ensures !DroppedKey("index") && !DroppedKey("type") && !DroppedKey("value")
  {
    DropLengths("device_id");
    DropLengths("ip");
    DropLengths("protocol_version");
    DropLengths("dps");
    DropLengths("index");
    DropLengths("type");
    DropLengths("value");
  }

  lemma DropLengths(name: string)
    requires |name| == 4 || (name != "" && name[0] in {'d', 'i', 'p', 'v'})
    ensures !DroppedKey(name)
  {
    assert |Lower(name)| == |name|;
    assert name != "" ==> Lower(name)[0] == LowerChar(name[0]);
  }

  // ---- what redaction does not cover ----

  /** Keys that are not dropped are printed as they are, secret or not. */
  lemma {:induction false} KeysAreKept(p: Printer, entries: seq<Entry>, secrets: seq<string>, i: nat)
    requires i < |entries| && !DroppedKey(KeyText(p, entries[i].key))
    ensures exists e :: e in SanitizeEntries(p, entries, secrets) && e.key == Name(KeyText(p, entries[i].key))
    decreases |entries|
  {
    hide DroppedKey, Put;
    var front, last := entries[..|entries| - 1], entries[|entries| - 1];
    var before, v := SanitizeEntries(p, front, secrets), Sanitize(p, last.value, secrets);
    PutKeeps(before, KeyText(p, last.key), v);
    if i < |front| {
      KeysAreKept(p, front, secrets, i);
      var e :| e in before && e.key == Name(KeyText(p, entries[i].key));
    }
  }

  lemma {:induction false} PutKeeps(entries: seq<Entry>, name: string, v: Value)
    ensures Entry(Name(name), v) in Put(entries, name, v)
    ensures forall e :: e in entries ==> exists f :: f in Put(entries, name, v) && f.key == e.key
  {
    if entries != [] {
      PutKeeps(entries[1..], name, v);
      forall e | e in entries ensures exists f :: f in Put(entries, name, v) && f.key == e.key {
        if e == entries[0] {
          assert Put(entries, name, v)[0].key == e.key;
        } else if entries[0].key != Name(name) {
          var f :| f in Put(entries[1..], name, v) && f.key == e.key;
          assert f in Put(entries, name, v);
        }
      }
    }
  }

  /** Entry i reaches the output: its key is not dropped, and no later entry
      takes the same text. */
  ghost predicate Survives(p: Printer, entries: seq<Entry>, i: int) {
    && 0 <= i < |entries| && !DroppedKey(KeyText(p, entries[i].key))
    && forall j :: i < j < |entries| ==> KeyText(p, entries[j].key) != KeyText(p, entries[i].key)
  }

  function Kept(p: Printer, e: Entry, secrets: seq<string>): Entry {
    Entry(Name(KeyText(p, e.key)), Sanitize(p, e.value, secrets))
  }

  lemma {:induction false} PutMembers(entries: seq<Entry>, name: string, v: Value, e: Entry)
    requires Distinct(entries)
    ensures e in Put(entries, name, v) <==> e == Entry(Name(name), v) || (e in entries && e.key != Name(name))
  {
    if entries != [] {
      var head, rest := entries[0], entries[1..];
      assert forall x :: x in rest ==> x.key != head.key;
      assert e in entries <==> e == head || e in rest;
      if head.key != Name(name) { PutMembers(rest, name, v, e); }
    }
  }

  /** e is what one of the surviving entries becomes. */
  ghost predicate FromSurvivor(p: Printer, entries: seq<Entry>, secrets: seq<string>, e: Entry) {
    exists i :: 0 <= i < |entries| && Survives(p, entries, i) && e == Kept(p, entries[i], secrets)
  }

  /** The output holds the surviving entries and no others. */
  lemma {:induction false} SurvivorsKept(p: Printer, entries: seq<Entry>, secrets: seq<string>, e: Entry)
    ensures e in SanitizeEntries(p, entries, secrets) <==> FromSurvivor(p, entries, secrets, e)
    decreases |entries|
  {
    if entries != [] {
      hide DroppedKey, Sanitize, Put, FromSurvivor;
      var n := |entries| - 1;
      var front, last := entries[..n], entries[n];
      SurvivorsKept(p, front, secrets, e);
      SanitizeEntriesPlain(p, front, secrets);
      PutMembers(SanitizeEntries(p, front, secrets), KeyText(p, last.key), Sanitize(p, last.value, secrets), e);
      SurvivorsStep(p, entries, secrets, e);
    }
  }

  lemma SurvivorsStep(p: Printer, entries: seq<Entry>, secrets: seq<string>, e: Entry)
    requires entries != []
    ensures var n := |entries| - 1;
            var name := KeyText(p, entries[n].key);
            FromSurvivor(p, entries, secrets, e) <==>
              if DroppedKey(name) then FromSurvivor(p, entries[..n], secrets, e)
              else || e == Kept(p, entries[n], secrets)
                   || (FromSurvivor(p, entries[..n], secrets, e) && e.key != Name(name))
  {
    hide DroppedKey, KeyText, Sanitize;
    var n := |entries| - 1;
    var front, name := entries[..n], KeyText(p, entries[n].key);
    assert Survives(p, entries, n) <==> !DroppedKey(name);
    if i :| 0 <= i < n && Survives(p, entries, i) && e == Kept(p, entries[i], secrets) {
      assert Survives(p, front, i) && front[i] == entries[i];
    }
    if i :| 0 <= i < n && Survives(p, front, i) && e == Kept(p, front[i], secrets) && e.key != Name(name) {
      assert Survives(p, entries, i) && front[i] == entries[i];
    }
  }

  /** No key of the output, at any depth, contains a secret. */
  ghost predicate KeysClean(v: Value, secrets: seq<string>)
    decreases v
  {
    match v
    case Tuple(items) => forall i :: 0 <= i < |items| ==> KeysClean(items[i], secrets)
    case List(items) => forall i :: 0 <= i < |items| ==> KeysClean(items[i], secrets)
    case Dict(entries) => forall i :: 0 <= i < |entries| ==>
      (entries[i].key.Name? ==> Free(entries[i].key.s, secrets)) && KeysClean(entries[i].value, secrets)
    case _ => true
  }

  /** No key that reaches the output, at any depth, contains a secret. */
  ghost predicate KeysFree(p: Printer, v: Value, secrets: seq<string>)
    decreases v
  {
    match v
    case Tuple(items) => forall i :: 0 <= i < |items| ==> KeysFree(p, items[i], secrets)
    case List(items) => forall i :: 0 <= i < |items| ==> KeysFree(p, items[i], secrets)
    case Dict(entries) => forall i :: 0 <= i < |entries| && Survives(p, entries, i) ==>
      Free(KeyText(p, entries[i].key), secrets) && KeysFree(p, entries[i].value, secrets)
    case _ => true
  }

  /** The output is free of secrets, keys included, if and only if no key that
      reaches it contained one: strings are redacted, keys never are. */
  lemma FreeWithKeys(p: Printer, v: Value, secrets: seq<string>)
    requires AllRemovable(secrets)
    ensures var output := Sanitize(p, v, secrets);
            Clean(output, secrets) && KeysClean(output, secrets) <==> KeysFree(p, v, secrets)
  {
    SanitizeComplete(p, v, secrets);
    KeysExactly(p, v, secrets);
    hide Clean, KeysClean, KeysFree, Sanitize;
  }

  lemma {:induction false} KeysExactly(p: Printer, v: Value, secrets: seq<string>)
    ensures KeysClean(Sanitize(p, v, secrets), secrets) <==> KeysFree(p, v, secrets)
    decreases v
  {
    match v
    case Tuple(items) => ItemsKeys(p, v, items, secrets);
    case List(items) => ItemsKeys(p, v, items, secrets);
    case Dict(entries) => EntriesKeys(p, v, entries, secrets);
    case _ =>
  }

  lemma {:induction false} ItemsKeys(p: Printer, v: Value, items: seq<Value>, secrets: seq<string>)
    requires v == Tuple(items) || v == List(items)
    ensures KeysClean(List(SanitizeItems(p, items, secrets)), secrets) <==>
            forall i :: 0 <= i < |items| ==> KeysFree(p, items[i], secrets)
    decreases v, 0
  {
    forall i | 0 <= i < |items|
      ensures KeysClean(SanitizeItems(p, items, secrets)[i], secrets) <==> KeysFree(p, items[i], secrets)
    {
      ItemAt(p, items, secrets, i);
      KeysExactly(p, items[i], secrets);
    }
  }

  lemma {:induction false} ItemAt(p: Printer, items: seq<Value>, secrets: seq<string>, i: nat)
    requires i < |items|
    ensures SanitizeItems(p, items, secrets)[i] == Sanitize(p, items[i], secrets)
    decreases |items|
  {
    hide Sanitize;
    if i < |items| - 1 { ItemAt(p, items[..|items| - 1], secrets, i); }
  }

  lemma {:induction false} EntriesKeys(p: Printer, v: Value, entries: seq<Entry>, secrets: seq<string>)
    requires v == Dict(entries)
    ensures KeysClean(Dict(SanitizeEntries(p, entries, secrets)), secrets) <==> KeysFree(p, v, secrets)
    decreases v, 0
  {
    hide Survives, Sanitize, SanitizeEntries, Free;
    var output := SanitizeEntries(p, entries, secrets);
    forall i | 0 <= i < |entries|
      ensures KeysClean(Sanitize(p, entries[i].value, secrets), secrets) <==> KeysFree(p, entries[i].value, secrets)
    {
      KeysExactly(p, entries[i].value, secrets);
    }
    if KeysClean(Dict(output), secrets) {
      forall i | 0 <= i < |entries| && Survives(p, entries, i)
        ensures Free(KeyText(p, entries[i].key), secrets) && KeysFree(p, entries[i].value, secrets)
      {
        SurvivorsKept(p, entries, secrets, Kept(p, entries[i], secrets));
        assert Kept(p, entries[i], secrets) in output;
        var k :| 0 <= k < |output| && output[k] == Kept(p, entries[i], secrets);
      }
    }
    if KeysFree(p, v, secrets) {
      forall k | 0 <= k < |output|
        ensures (output[k].key.Name? ==> Free(output[k].key.s, secrets)) && KeysClean(output[k].value, secrets)
      {
        SurvivorsKept(p, entries, secrets, output[k]);
        var i :| 0 <= i < |entries| && Survives(p, entries, i) && output[k] == Kept(p, entries[i], secrets);
      }
    }
  }
}
