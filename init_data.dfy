/**
 * Checking the init data a Telegram Mini App sends with every request
 * (backend.py), following "Validating data received via the Mini App" in
 * the Telegram Bot API: the query string's `hash` field must be the hex
 * HMAC-SHA256 of the other fields, sorted by key and written as `k=v`
 * lines, under the key HMAC-SHA256("WebAppData", bot token).
 *
 * The query-string parser, the JSON decoder, UTF-8 encoding and HMAC-SHA256
 * are library code; they are the fields of an `Env` and nothing is assumed
 * about them. A failure of a library call, or a Python exception the
 * handlers do not catch, is a `ServerFault` (the web framework answers 500).
 */
module InitData {
  import opened Wrappers
  import opened Dicts
  import opened Text
  import opened Decimal

  type Byte = x: int | 0 <= x < 256

  /** What `json.loads` produces (objects keep their keys in order). */
  datatype Json =
    | JNull
    | JBool(b: bool)
    | JInt(i: int)
    | JStr(s: string)
    | JArr(items: seq<Json>)
    | JObj(fields: Dict<string, Json>)

  /** Python truthiness of a decoded value. */
  predicate Truthy(j: Json)
  {
    match j
    case JNull => false
    case JBool(b) => b
    case JInt(i) => i != 0
    case JStr(s) => s != ""
    case JArr(items) => |items| > 0
    case JObj(fields) => |fields| > 0
  }

  datatype Error =
    | Unauthorized(detail: string)  // HTTPException(401, detail)
    | ServerFault(reason: string)   // an uncaught exception

  const MissingInitData := "Missing init data"
  const MissingHash := "Missing hash"
  const BadSignature := "Invalid init data signature"
  const NoUser := "No user in init data"

  datatype Env = Env(
    botToken: string,
    hmacSha256: (seq<Byte>, seq<Byte>) -> seq<Byte>,  // key, message
    utf8: string -> seq<Byte>,
    parseQuery: string -> Option<seq<(string, string)>>,  // parse_qsl(strict_parsing=True)
    parseJson: string -> Option<Json>)                     // json.loads

  const HashKey := "hash"

  /** The ASCII bytes of "WebAppData", the key that derives the secret. */
  const WebAppDataKey: seq<Byte> := [87, 101, 98, 65, 112, 112, 68, 97, 116, 97]

  /** The fields whose values are JSON documents. */
  const DecodedKeys: set<string> := {"user", "receiver", "chat"}

  // ---------------- hexadecimal digests ----------------

  /** The lower-case hex digit of `n`: '0'..'9', then 'a'..'f'. */
  function HexDigit(n: nat): char
    requires n < 16
  {
    if n < 10 then ('0' as int + n) as char else ('a' as int + n - 10) as char
  }

  /** `hexdigest()`: two lower-case digits per byte, high half first. */
  function Hex(bs: seq<Byte>): (h: string)
    ensures |h| == 2 * |bs|
  {
    if |bs| == 0 then "" else [HexDigit(bs[0] / 16), HexDigit(bs[0] % 16)] + Hex(bs[1..])
  }

  function NibbleValue(c: char): Option<nat>
  {
    if '0' <= c <= '9' then Some(c as int - '0' as int)
    else if 'a' <= c <= 'f' then Some(c as int - 'a' as int + 10)
    else None
  }

  /** Reads lower-case hex back into bytes; `None` for anything `Hex` cannot produce. */
  function UnHex(h: string): Option<seq<Byte>>
    decreases |h|
  {
    if |h| == 0 then Some([])
    else if |h| == 1 then None
    else match (NibbleValue(h[0]), NibbleValue(h[1]), UnHex(h[2..]))
      case (Some(hi), Some(lo), Some(rest)) =>
        if hi < 16 && lo < 16 then Some([hi * 16 + lo] + rest) else None
      case _ => None
  }

  lemma NibbleOfDigit(n: nat)
    requires n < 16
    ensures NibbleValue(HexDigit(n)) == Some(n)
  {
  }

  lemma DigitOfNibble(c: char)
    requires NibbleValue(c).Some?
    ensures NibbleValue(c).value < 16 && HexDigit(NibbleValue(c).value) == c
  {
  }

  lemma ByteHalves(hi: nat, lo: nat)
    requires hi < 16 && lo < 16
    ensures (hi * 16 + lo) / 16 == hi && (hi * 16 + lo) % 16 == lo
  {
  }

  /** `UnHex` inverts `Hex`. */
  lemma {:induction false} UnHexHex(bs: seq<Byte>)
    ensures UnHex(Hex(bs)) == Some(bs)
  {
    if |bs| > 0 {
      var h := Hex(bs);
      NibbleOfDigit(bs[0] / 16);
      NibbleOfDigit(bs[0] % 16);
      UnHexHex(bs[1..]);
      assert h[2..] == Hex(bs[1..]);
      assert [bs[0]] + bs[1..] == bs;
    }
  }

  /** Different digests have different hex texts, so comparing texts compares digests. */
  lemma HexInjective(a: seq<Byte>, b: seq<Byte>)
    requires Hex(a) == Hex(b)
    ensures a == b
  {
    UnHexHex(a);
    UnHexHex(b);
  }

  // ---------------- the data-check-string ----------------

  function Line(fields: Dict<string, string>, k: string): string
  {
    k + "=" + (match Get(fields, k) case Some(v) => v case None => "")
  }

  function Lines(fields: Dict<string, string>, ks: seq<string>): seq<string>
  {
    seq(|ks|, i requires 0 <= i < |ks| => Line(fields, ks[i]))
  }

  /** The `k=v` lines of every field in ascending key order, joined by line feeds. */
  function DataCheckString(fields: Dict<string, string>): string
  {
    Join(Lines(fields, Sort(KeysOf(fields))), "\n")
  }

  function SecretKey(env: Env): seq<Byte>
  {
    env.hmacSha256(WebAppDataKey, env.utf8(env.botToken))
  }

  /** The digest a genuine `hash` field carries for these fields. */
  function Digest(env: Env, fields: Dict<string, string>): seq<Byte>
  {
    env.hmacSha256(SecretKey(env), env.utf8(DataCheckString(fields)))
  }

  lemma DistinctKeysNoDuplicates(d: Dict<string, string>)
    requires DistinctKeys(d)
    ensures NoDuplicates(KeysOf(d))
  {
    var ks := KeysOf(d);
    forall i, j | 0 <= i < j < |ks| ensures ks[i] != ks[j] {
      assert ks[i] == d[i].0 && ks[j] == d[j].0;
    }
  }

  /**
   * The data-check-string lists the keys in strictly ascending order: any
   * strictly ascending listing of exactly the fields' keys yields it.
   */
  lemma DataCheckStringSorted(fields: Dict<string, string>, ks: seq<string>)
    requires DistinctKeys(fields)
    requires StrictlyAscending(ks)
    requires forall k :: k in ks <==> HasKey(fields, k)
    ensures DataCheckString(fields) == Join(Lines(fields, ks), "\n")
  {
    var keys := KeysOf(fields);
    DistinctKeysNoDuplicates(fields);
    SortDistinct(keys);
    forall k ensures k in Sort(keys) <==> k in ks {
      KeysOfHasKey(fields, k);
    }
    StrictlyAscendingUnique(Sort(keys), ks);
  }

  /**
   * The data-check-string depends only on what each key holds, not on the
   * order in which the client sent the fields.
   */
  lemma DataCheckStringCanonical(a: Dict<string, string>, b: Dict<string, string>)
    requires DistinctKeys(a) && DistinctKeys(b)
    requires forall k :: Get(a, k) == Get(b, k)
    ensures DataCheckString(a) == DataCheckString(b)
  {
    var ks := Sort(KeysOf(a));
    DistinctKeysNoDuplicates(a);
    SortDistinct(KeysOf(a));
    forall k ensures k in ks <==> HasKey(a, k) {
      KeysOfHasKey(a, k);
    }
    SameKeys(a, b);
    DataCheckStringSorted(a, ks);
    DataCheckStringSorted(b, ks);
    LinesAgree(a, b, ks);
  }

  lemma SameKeys(a: Dict<string, string>, b: Dict<string, string>)
    requires forall k :: Get(a, k) == Get(b, k)
    ensures forall k :: HasKey(a, k) <==> HasKey(b, k)
  {
    forall k ensures HasKey(a, k) <==> HasKey(b, k) {
      assert Get(a, k) == Get(b, k);
    }
  }

  lemma LinesAgree(a: Dict<string, string>, b: Dict<string, string>, ks: seq<string>)
    requires forall k :: Get(a, k) == Get(b, k)
    ensures Lines(a, ks) == Lines(b, ks)
  {
    forall i | 0 <= i < |ks| ensures Lines(a, ks)[i] == Lines(b, ks)[i] {
      assert Get(a, ks[i]) == Get(b, ks[i]);
    }
  }

  // ---------------- the signature check ----------------

  /** `dict(parse_qsl(...))` without its `hash` entry. */
  function Fields(pairs: seq<(string, string)>): Dict<string, string>
  {
    Remove(FromPairs(pairs), HashKey)
  }

  /**
   * The first half of `verify_init_data`: rejects empty init data, a query
   * string the parser refuses, a missing or empty `hash` and a wrong `hash`;
   * otherwise yields the fields other than `hash`, in the order they arrived.
   */
  function CheckSignature(env: Env, initData: string): (r: Result<Dict<string, string>, Error>)
    ensures initData == "" ==> r == Err(Unauthorized(MissingInitData))
    ensures initData != "" && env.parseQuery(initData).None? ==> r.Err? && r.error.ServerFault?
    ensures r.Ok? ==> DistinctKeys(r.value) && !HasKey(r.value, HashKey)
  {
    if initData == "" then Err(Unauthorized(MissingInitData))
    else match env.parseQuery(initData)
      case None => Err(ServerFault("malformed query string"))
      case Some(pairs) =>
        var received := Get(FromPairs(pairs), HashKey);
        var fields := Fields(pairs);
        FromPairsDistinct(pairs);
        RemoveDistinct(FromPairs(pairs), HashKey);
        GetRemove(FromPairs(pairs), HashKey, HashKey);
        if received.None? || received.value == "" then Err(Unauthorized(MissingHash))
        else if Hex(Digest(env, fields)) != received.value then Err(Unauthorized(BadSignature))
        else Ok(fields)
  }

  /**
   * For a parsed query string: a missing or empty `hash` gives "Missing
   * hash"; otherwise the data is accepted exactly when the `hash` decodes
   * as hex to the digest of the other fields, and "Invalid init data
   * signature" is the answer when it does not. An accepted result holds the
   * last value sent for every key but `hash`.
   */
  lemma SignatureDecision(env: Env, initData: string, pairs: seq<(string, string)>)
    requires initData != "" && env.parseQuery(initData) == Some(pairs)
    ensures LastValue(pairs, HashKey) in {None, Some("")} ==> CheckSignature(env, initData) == Err(Unauthorized(MissingHash))
    ensures LastValue(pairs, HashKey) !in {None, Some("")} ==>
      (CheckSignature(env, initData).Ok? <==> UnHex(LastValue(pairs, HashKey).value) == Some(Digest(env, Fields(pairs))))
      && (CheckSignature(env, initData).Err? ==> CheckSignature(env, initData) == Err(Unauthorized(BadSignature)))
    ensures CheckSignature(env, initData).Ok? ==>
      forall k :: Get(CheckSignature(env, initData).value, k) == if k == HashKey then None else LastValue(pairs, k)
  {
    FromPairsLastWins(pairs, HashKey);
    var h := LastValue(pairs, HashKey);
    if h.Some? && h.value != "" {
      UnHexHex(Digest(env, Fields(pairs)));
      if UnHex(h.value) == Some(Digest(env, Fields(pairs))) {
        HexOfUnHex(h.value);
      }
    }
    forall k ensures Get(Fields(pairs), k) == if k == HashKey then None else LastValue(pairs, k) {
      GetRemove(FromPairs(pairs), HashKey, k);
      FromPairsLastWins(pairs, k);
    }
  }

  /** Whatever `UnHex` accepts is the hex text of what it yields. */
  lemma {:induction false} HexOfUnHex(h: string)
    requires UnHex(h).Some?
    ensures Hex(UnHex(h).value) == h
    decreases |h|
  {
    if |h| >= 2 {
      HexOfUnHex(h[2..]);
      var hi := NibbleValue(h[0]).value;
      var lo := NibbleValue(h[1]).value;
      DigitOfNibble(h[0]);
      DigitOfNibble(h[1]);
      ByteHalves(hi, lo);
      var bs := UnHex(h).value;
      assert bs[1..] == UnHex(h[2..]).value;
      assert h == [h[0], h[1]] + h[2..];
    }
  }

  /**
   * Reordering the fields, or repeating one with its final value last,
   * changes nothing about acceptance.
   */
  lemma SignatureIgnoresFieldOrder(env: Env, x: string, y: string, p: seq<(string, string)>, q: seq<(string, string)>)
    requires x != "" && env.parseQuery(x) == Some(p)
    requires y != "" && env.parseQuery(y) == Some(q)
    requires forall k :: LastValue(p, k) == LastValue(q, k)
    ensures CheckSignature(env, x).Ok? <==> CheckSignature(env, y).Ok?
  {
    forall k ensures Get(Fields(p), k) == Get(Fields(q), k) {
      GetRemove(FromPairs(p), HashKey, k);
      GetRemove(FromPairs(q), HashKey, k);
      FromPairsLastWins(p, k);
      FromPairsLastWins(q, k);
    }
    FromPairsDistinct(p);
    RemoveDistinct(FromPairs(p), HashKey);
    FromPairsDistinct(q);
    RemoveDistinct(FromPairs(q), HashKey);
    DataCheckStringCanonical(Fields(p), Fields(q));
    FromPairsLastWins(p, HashKey);
    FromPairsLastWins(q, HashKey);
  }

  // ---------------- decoding the checked fields ----------------

  /** A `user`, `receiver` or `chat` value is decoded as JSON when it parses; every other value stays text. */
  function DecodeField(env: Env, k: string, v: string): Json
  {
    if k in DecodedKeys then
      match env.parseJson(v)
      case Some(j) => j
      case None => JStr(v)
    else JStr(v)
  }

  /** The `result` dictionary built from the checked fields. */
  function DecodeAll(env: Env, fields: Dict<string, string>): Dict<string, Json>
  {
    if |fields| == 0 then []
    else
      var last := fields[|fields| - 1];
      DecodeAll(env, fields[..|fields| - 1]) + [(last.0, DecodeField(env, last.0, last.1))]
  }

  /**
   * Decoding keeps every key in its place, decodes just the three JSON
   * fields and passes every other value through unchanged.
   */
  lemma {:induction false} DecodeAllFields(env: Env, fields: Dict<string, string>, k: string)
    ensures KeysOf(DecodeAll(env, fields)) == KeysOf(fields)
    ensures Get(DecodeAll(env, fields), k) ==
      match Get(fields, k)
      case None => None
      case Some(v) => Some(DecodeField(env, k, v))
    ensures Get(fields, k).Some? && k !in DecodedKeys ==> Get(DecodeAll(env, fields), k) == Some(JStr(Get(fields, k).value))
  {
    if |fields| > 0 {
      var init := fields[..|fields| - 1];
      var last := fields[|fields| - 1];
      DecodeAllFields(env, init, k);
      GetAppend(DecodeAll(env, init), last.0, DecodeField(env, last.0, last.1), k);
      assert fields == init + [last];
      GetAppend(init, last.0, last.1, k);
      assert KeysOf(DecodeAll(env, fields)) == KeysOf(DecodeAll(env, init)) + [last.0];
      assert KeysOf(fields) == KeysOf(init) + [last.0];
      assert HasKey(DecodeAll(env, init), k) <==> HasKey(init, k) by {
        KeysOfHasKey(DecodeAll(env, init), k);
        KeysOfHasKey(init, k);
      }
    }
  }

  lemma DecodeAllDistinct(env: Env, fields: Dict<string, string>)
    requires DistinctKeys(fields)
    ensures DistinctKeys(DecodeAll(env, fields))
  {
    var d := DecodeAll(env, fields);
    DecodeAllFields(env, fields, "");
    forall i, j | 0 <= i < j < |d| ensures d[i].0 != d[j].0 {
      assert KeysOf(d)[i] == fields[i].0 && KeysOf(d)[j] == fields[j].0;
    }
  }

  /** With distinct keys, the key at `i` is not among those before it. */
  lemma FirstOccurrence(d: Dict<string, string>, i: nat)
    requires DistinctKeys(d) && i < |d|
    ensures !HasKey(d[..i], d[i].0)
  {
    forall j | 0 <= j < i ensures d[..i][j].0 != d[i].0 {
      assert d[..i][j] == d[j];
    }
  }

  /** `verify_init_data`: the checked fields with the JSON ones decoded. */
  function VerifiedData(env: Env, initData: string): Result<Dict<string, Json>, Error>
  {
    match CheckSignature(env, initData)
    case Err(e) => Err(e)
    case Ok(fields) => Ok(DecodeAll(env, fields))
  }

  method VerifyInitData(env: Env, initData: string) returns (r: Result<Dict<string, Json>, Error>)
    ensures r == VerifiedData(env, initData)
    ensures r.Ok? ==> DistinctKeys(r.value) && !HasKey(r.value, HashKey)
  {
    var checked := CheckSignature(env, initData);
    if checked.Err? {
      return Err(checked.error);
    }
    var parsed := checked.value;
    var result: Dict<string, Json> := [];
    for i := 0 to |parsed|
      invariant result == DecodeAll(env, parsed[..i])
    {
      var (k, v) := parsed[i];
      DecodeAllFields(env, parsed[..i], k);
      FirstOccurrence(parsed, i);
      assert !HasKey(result, k);
      var value: Json;
      if k in DecodedKeys {
        var decoded := env.parseJson(v);
        if decoded.Some? {
          value := decoded.value;
        } else {
          value := JStr(v);
        }
      } else {
        value := JStr(v);
      }
      PutNew(result, k, value);
      result := Put(result, k, value);
      assert parsed[..i + 1] == parsed[..i] + [parsed[i]];
    }
    assert parsed[..|parsed|] == parsed;
    DecodeAllDistinct(env, parsed);
    DecodeAllFields(env, parsed, HashKey);
    r := Ok(result);
  }

  // ---------------- the user id ----------------

  /** `int(value)` on a decoded id. */
  function IntOf(j: Json): Result<int, Error>
  {
    match j
    case JInt(i) => Ok(i)
    case JBool(b) => Ok(if b then 1 else 0)
    case JStr(s) =>
      (match ParseInt(s)
       case Some(i) => Ok(i)
       case None => Err(ServerFault("invalid literal for int()")))
    case _ => Err(ServerFault("int() argument must be a number or a string"))
  }

  /**
   * The checks of `extract_user_id_from_init_data` on verified data: the
   * `user` field must be truthy and hold an `id`, read with `int`. Python's
   * `in` also answers for a text or a list, after which indexing it with
   * "id" fails; on any other truthy value `in` itself fails.
   */
  function UserIdOf(data: Dict<string, Json>): (r: Result<int, Error>)
    ensures Get(data, "user").None? ==> r == Err(Unauthorized(NoUser))
    ensures r.Ok? ==>
      Get(data, "user").Some? && Get(data, "user").value.JObj? && HasKey(Get(data, "user").value.fields, "id")
  {
    match Get(data, "user")
    case None => Err(Unauthorized(NoUser))
    case Some(user) =>
      if !Truthy(user) then Err(Unauthorized(NoUser))
      else match user
        case JObj(fields) =>
          (match Get(fields, "id")
           case None => Err(Unauthorized(NoUser))
           case Some(id) => IntOf(id))
        case JStr(s) =>
          if Contains(s, "id") then Err(ServerFault("string indices must be integers"))
          else Err(Unauthorized(NoUser))
        case JArr(items) =>
          if JStr("id") in items then Err(ServerFault("list indices must be integers"))
          else Err(Unauthorized(NoUser))
        case _ => Err(ServerFault("argument of type is not iterable"))
  }

  /**
   * A user object without an `id` is refused with 401; an integer `id`, or
   * one sent as its decimal text, is the user id.
   */
  lemma UserIdOfObject(data: Dict<string, Json>, user: Dict<string, Json>, n: int)
    requires Get(data, "user") == Some(JObj(user))
    ensures !HasKey(user, "id") ==> UserIdOf(data) == Err(Unauthorized(NoUser))
    ensures Get(user, "id") == Some(JInt(n)) ==> UserIdOf(data) == Ok(n)
    ensures Get(user, "id") == Some(JStr(IntToString(n))) ==> UserIdOf(data) == Ok(n)
  {
    ParseIntToString(n);
    if |user| == 0 {
      assert !HasKey(user, "id");
    }
  }

  /** `extract_user_id_from_init_data` as a function of its input. */
  function AuthenticatedUserId(env: Env, initData: string): Result<int, Error>
  {
    match VerifiedData(env, initData)
    case Err(e) => Err(e)
    case Ok(data) => UserIdOf(data)
  }

  /** A user id comes only from init data whose signature checks out. */
  lemma AuthenticatedUserIdIsSigned(env: Env, initData: string)
    requires AuthenticatedUserId(env, initData).Ok?
    ensures initData != "" && env.parseQuery(initData).Some?
    ensures LastValue(env.parseQuery(initData).value, HashKey).Some?
    ensures UnHex(LastValue(env.parseQuery(initData).value, HashKey).value)
      == Some(Digest(env, Fields(env.parseQuery(initData).value)))
  {
    SignatureDecision(env, initData, env.parseQuery(initData).value);
  }

  method ExtractUserId(env: Env, initData: string) returns (r: Result<int, Error>)
    ensures r == AuthenticatedUserId(env, initData)
  {
    var data := VerifyInitData(env, initData);
    if data.Err? {
      return Err(data.error);
    }
    r := UserIdOf(data.value);
  }

  // ---------------- the display name ----------------

  /** `u.get(key) or ""`. */
  function OrEmpty(j: Option<Json>): Json
  {
    if j.Some? && Truthy(j.value) then j.value else JStr("")
  }

  /**
   * The name `get_state` shows for a user object: first and last name
   * joined by a space and stripped, or else the `username` value (`JNull`
   * for Python's `None`). A truthy name that is not text makes the join fail.
   */
  function DisplayName(data: Dict<string, Json>): Result<Json, Error>
  {
    var user := Get(data, "user");
    if user.Some? && user.value.JObj? then NameOf(user.value.fields) else Ok(JNull)
  }

  /** The display name of the user object `u`. */
  function NameOf(u: Dict<string, Json>): Result<Json, Error>
  {
    var first := OrEmpty(Get(u, "first_name"));
    var last := OrEmpty(Get(u, "last_name"));
    if !first.JStr? || !last.JStr? then Err(ServerFault("sequence item: expected str instance"))
    else
      var joined := Strip(first.s + " " + last.s);
      if joined != "" then Ok(JStr(joined))
      else Ok(match Get(u, "username") case Some(n) => n case None => JNull)
  }

  /** A first and a last name without surrounding blanks are shown as "first last". */
  lemma DisplayNameJoins(data: Dict<string, Json>, u: Dict<string, Json>, first: string, last: string)
    requires Get(data, "user") == Some(JObj(u))
    requires Get(u, "first_name") == Some(JStr(first)) && Get(u, "last_name") == Some(JStr(last))
    requires first != "" && !IsSpace(first[0]) && last != "" && !IsSpace(last[|last| - 1])
    ensures DisplayName(data) == Ok(JStr(first + " " + last))
  {
    var s := first + " " + last;
    assert s[0] == first[0] && s[|s| - 1] == last[|last| - 1];
    StripUnchanged(s);
    assert OrEmpty(Get(u, "first_name")) == JStr(first);
    assert OrEmpty(Get(u, "last_name")) == JStr(last);
    assert NameOf(u) == Ok(JStr(s));
  }

  /** With neither name present the `username` is shown, or nothing. */
  lemma DisplayNameFallsBack(data: Dict<string, Json>, u: Dict<string, Json>)
    requires Get(data, "user") == Some(JObj(u))
    requires Get(u, "first_name").None? && Get(u, "last_name").None?
    ensures DisplayName(data) == Ok(match Get(u, "username") case Some(n) => n case None => JNull)
  {
    assert OrEmpty(Get(u, "first_name")) == JStr("") && OrEmpty(Get(u, "last_name")) == JStr("");
    assert IsSpace(' ');
    assert Strip("" + " " + "") == "" by {
      assert TrimStart(" ") == TrimStart([]);
    }
    assert NameOf(u) == Ok(match Get(u, "username") case Some(n) => n case None => JNull);
  }
}
