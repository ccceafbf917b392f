/**
 * Shared vocabulary of the backend model: optional values, handler results,
 * the error taxonomy the controllers answer with, and the few PHP/Laravel
 * string primitives (trim, `required`, `accepted`, boolean coercion,
 * basename) whose exact behaviour the handlers depend on.
 */
module Support {

  /** Row ids are the auto-increment keys of the tables. */
  type Id = nat

  datatype Option<T> = None | Some(value: T) {
    function GetOr(default: T): T {
      if Some? then value else default
    }
  }

  /** The failure answers of the handlers, one constructor per response kind. */
  datatype Error =
    | ValidationFailed               // 422, the framework's rule validation rejected the request
    | Invalid(field: string)         // 422, a handler-level check on one field failed
    | Unauthorized(message: string)  // 401
    | Forbidden(message: string)     // 403
    | NotFound(message: string)      // 404
    | BadRequest(message: string)    // 400
    | Conflict(inUse: nat)           // 409, the row is still referenced by `inUse` rows
    | Internal                       // 500, an exception reached the generic handler
  {
    function Code(): nat {
      match this
      case ValidationFailed => 422
      case Invalid(_) => 422
      case Unauthorized(_) => 401
      case Forbidden(_) => 403
      case NotFound(_) => 404
      case BadRequest(_) => 400
      case Conflict(_) => 409
      case Internal => 500
    }
  }

  datatype Result<T> = Ok(value: T) | Err(error: Error)

  /** The message of the framework's 404 for `findOrFail` and route-model binding on an unknown id. */
  const NoQueryResults: string := "No query results for model"

  /**
   * An uploaded file: whether it passes the `file|mimes:...|max:...` rules,
   * and the random name the disk stores it under.
   */
  datatype Upload = Upload(acceptable: bool, hashName: string)

  /** The characters PHP's `trim` strips by default. */
  const TrimmedChars: set<char> := {' ', '\t', '\n', '\r', '\0', '\U{B}'}

  function TrimLeft(s: string): (r: string)
    ensures |r| <= |s| && r == s[|s| - |r|..]
    ensures forall i :: 0 <= i < |s| - |r| ==> s[i] in TrimmedChars
    ensures r == [] || r[0] !in TrimmedChars
  {
    if s != [] && s[0] in TrimmedChars then TrimLeft(s[1..]) else s
  }

  function TrimRight(s: string): (r: string)
    ensures |r| <= |s| && r == s[..|r|]
    ensures forall i :: |r| <= i < |s| ==> s[i] in TrimmedChars
    ensures r == [] || r[|r| - 1] !in TrimmedChars
  {
    if s != [] && s[|s| - 1] in TrimmedChars then TrimRight(s[..|s| - 1]) else s
  }

  /** PHP `trim($s)`. */
  function Trim(s: string): (r: string)
    ensures |r| <= |s|
    ensures r == [] || (r[0] !in TrimmedChars && r[|r| - 1] !in TrimmedChars)
    ensures (forall i :: 0 <= i < |s| ==> s[i] in TrimmedChars) <==> r == []
  {
    TrimRight(TrimLeft(s))
  }

  /** Laravel's `required` rule on a string: it fails when the trimmed value is empty. */
  predicate Required(s: string) {
    Trim(s) != []
  }

  /** Laravel's `accepted` rule: strict membership in its list of accepting values. */
  predicate AcceptedValue(v: string) {
    v in {"yes", "on", "1", "true"}
  }

  function AsciiLower(s: string): (r: string)
    ensures |r| == |s|
    ensures forall i :: 0 <= i < |s| ==> (if 'A' <= s[i] <= 'Z' then r[i] == s[i] - 'A' + 'a' else r[i] == s[i])
  {
    seq(|s|, i requires 0 <= i < |s| => if 'A' <= s[i] <= 'Z' then s[i] - 'A' + 'a' else s[i])
  }

  /** `$request->boolean(key)`: the value is true for 1/true/on/yes in any letter case. */
  predicate BooleanOf(v: Option<string>) {
    v.Some? && AsciiLower(v.value) in {"1", "true", "on", "yes"}
  }

  /** PHP `empty()` on a nullable string column: null, "" and "0" are empty. */
  predicate Empty(v: Option<string>) {
    v.None? || v.value == "" || v.value == "0"
  }

  /** PHP's `(bool)` cast of a string, as Eloquent's `boolean` attribute cast applies it. */
  predicate Truthy(v: string) {
    v != "" && v != "0"
  }

  /** Whatever `accepted` lets through, the boolean coercion reads as true. */
  lemma AcceptedIsTrue(v: string)
    requires AcceptedValue(v)
    ensures BooleanOf(Some(v)) && Truthy(v)
  {
    if v == "yes" {
      assert AsciiLower(v) == "yes";
    } else if v == "on" {
      assert AsciiLower(v) == "on";
    } else if v == "1" {
      assert AsciiLower(v) == "1";
    } else {
      assert AsciiLower(v) == "true";
    }
  }

  /** The file name after the last `/` of a path (PHP `basename` on a path without trailing `/`). */
  function LastSegment(p: string): (r: string)
    ensures '/' !in r
    ensures |r| <= |p| && r == p[|p| - |r|..]
    ensures |r| < |p| ==> p[|p| - |r| - 1] == '/'
  {
    if p == [] || p[|p| - 1] == '/' then [] else LastSegment(p[..|p| - 1]) + [p[|p| - 1]]
  }

  function DropTrailingSlashes(p: string): (r: string)
    ensures |r| <= |p| && r == p[..|r|]
    ensures forall i :: |r| <= i < |p| ==> p[i] == '/'
    ensures r == [] || r[|r| - 1] != '/'
  {
    if p != [] && p[|p| - 1] == '/' then DropTrailingSlashes(p[..|p| - 1]) else p
  }

  /** PHP `basename($path)`: trailing slashes are ignored, then the last segment is taken. */
  function Basename(p: string): (r: string)
    ensures '/' !in r
    ensures var q := DropTrailingSlashes(p);
            |r| <= |q| && r == q[|q| - |r|..] && (|r| < |q| ==> q[|q| - |r| - 1] == '/')
  {
    LastSegment(DropTrailingSlashes(p))
  }

  /** The last segment of a path whose file name follows a `/`-terminated directory is that file name. */
  lemma {:induction false} LastSegmentOfFile(dir: string, name: string)
    requires dir == [] || dir[|dir| - 1] == '/'
    requires '/' !in name
    ensures LastSegment(dir + name) == name
    decreases |name|
  {
    if name == [] {
      assert dir + name == dir;
    } else {
      var n := |name| - 1;
      assert (dir + name)[..|dir + name| - 1] == dir + name[..n];
      LastSegmentOfFile(dir, name[..n]);
      assert name == name[..n] + [name[n]];
    }
  }

  /** `basename(<dir>/<name>)` is `<name>` for a non-empty file name. */
  lemma BasenameOfFile(dir: string, name: string)
    requires dir == [] || dir[|dir| - 1] == '/'
    requires '/' !in name && name != []
    ensures Basename(dir + name) == name
  {
    assert (dir + name)[|dir + name| - 1] == name[|name| - 1];
    LastSegmentOfFile(dir, name);
  }

  /**
   * The first id in `from..bound-1`, in ascending order, whose row satisfies `p`:
   * a query `->where(...)->first()` over a table whose ids are below `bound`.
   */
  function FirstId<R>(rows: map<Id, R>, p: R -> bool, from: nat, bound: nat): (r: Option<Id>)
    ensures r.Some? ==> from <= r.value < bound && r.value in rows && p(rows[r.value])
    ensures r.Some? ==> forall j :: from <= j < r.value && j in rows ==> !p(rows[j])
    ensures r.None? ==> forall j :: from <= j < bound && j in rows ==> !p(rows[j])
    decreases bound - from
  {
    if from >= bound then None
    else if from in rows && p(rows[from]) then Some(from)
    else FirstId(rows, p, from + 1, bound)
  }

  /** The prefix of length `k + 1` is the prefix of length `k` and one more element. */
  lemma PrefixSnoc<T>(s: seq<T>, k: nat)
    requires k < |s|
    ensures s[..k + 1] == s[..k] + [s[k]]
  {
  }

  /** Storing a value under a key that already holds it changes nothing. */
  lemma UpdateSame<K, V>(m: map<K, V>, k: K, v: V)
    ensures m[k := v][k := v] == m[k := v]
  {
  }
}
