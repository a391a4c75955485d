/** The etcd keys and the two identifiers embedded in them: what validation accepts, how keys are
    printed, and how the two independent parsers read them back. */
module Keys {
  import opened Basics

  datatype Key =
    | HsiKey(node: string, user: string)
    | DnsKey(node: string, user: string)
    | CountKey(node: string)
    | NodeKey(node: string)

  // ----- validation -----

  predicate IsDigit(c: char) {
    '0' <= c <= '9'
  }

  predicate IsNodeChar(c: char) {
    'A' <= c <= 'Z' || 'a' <= c <= 'z' || IsDigit(c) || c == '_' || c == '-'
  }

  predicate ValidNodeID(id: string) {
    1 <= |id| <= 64 && forall i | 0 <= i < |id| :: IsNodeChar(id[i])
  }

  /** Node identifiers are 1 to 64 ASCII letters, digits, '-' (45) and '_' (95). */
  lemma NodeIDsAreAscii(id: string)
    ensures ValidNodeID(id) <==>
      1 <= |id| <= 64 && forall i | 0 <= i < |id| :: var c := id[i] as int;
        48 <= c <= 57 || 65 <= c <= 90 || 97 <= c <= 122 || c == 45 || c == 95
  {
  }

  const UINT32_MAX: nat := 0xFFFF_FFFF

  /** strconv.ParseUint in base 10 on a string of digits. */
  function ParseDigits(s: string): nat
    requires forall i | 0 <= i < |s| :: IsDigit(s[i])
  {
    if s == [] then 0
    else
      var last := s[|s| - 1];
      assert IsDigit(last);
      10 * ParseDigits(s[..|s| - 1]) + (last - '0') as int
  }

  /** The checks in the order the code makes them. */
  predicate ValidUserID(id: string) {
    && id != ""
    && (forall i | 0 <= i < |id| :: IsDigit(id[i]))
    && id != "0"
    && id[0] != '0'
    && ParseDigits(id) <= UINT32_MAX
  }

  /** The canonical decimal form of a positive number. */
  function Decimal(n: nat): (s: string)
    requires n > 0
    ensures Canonical(s) && ParseDigits(s) == n
  {
    var digit := [(n % 10) as char + '0'];
    if n < 10 then digit else
      var front := Decimal(n / 10);
      assert (front + digit)[..|front|] == front;
      front + digit
  }

  predicate Canonical(s: string) {
    s != "" && s[0] != '0' && forall i | 0 <= i < |s| :: IsDigit(s[i])
  }

  lemma {:induction false} CanonicalIsPositive(s: string)
    requires Canonical(s)
    ensures ParseDigits(s) > 0
  {
    var front := s[..|s| - 1];
    if front != "" {
      assert front[0] == s[0];
      CanonicalIsPositive(front);
    } else {
      assert IsDigit(s[0]);
    }
  }

  /** A number has one canonical decimal form. */
  lemma {:induction false} CanonicalIsUnique(s: string, t: string)
    requires Canonical(s) && Canonical(t) && ParseDigits(s) == ParseDigits(t)
    ensures s == t
  {
    var front, front' := s[..|s| - 1], t[..|t| - 1];
    assert IsDigit(s[|s| - 1]) && IsDigit(t[|t| - 1]);
    assert ParseDigits(front) == ParseDigits(front') && s[|s| - 1] == t[|t| - 1];
    if front != "" {
      assert front[0] == s[0];
      CanonicalIsPositive(front);
    }
    if front' != "" {
      assert front'[0] == t[0];
      CanonicalIsPositive(front');
    }
    if front != "" && front' != "" {
      CanonicalIsUnique(front, front');
    }
    assert s == front + [s[|s| - 1]] && t == front' + [t[|t| - 1]];
  }

  lemma ValidIsCanonical(id: string)
    ensures ValidUserID(id) <==> Canonical(id) && ParseDigits(id) <= UINT32_MAX
  {
  }

  lemma CanonicalIsDecimal(id: string)
    requires Canonical(id)
    ensures ParseDigits(id) > 0 && id == Decimal(ParseDigits(id))
  {
    CanonicalIsPositive(id);
    CanonicalIsUnique(id, Decimal(ParseDigits(id)));
  }

  predicate IsDecimalOf(id: string, n: nat) {
    n > 0 && id == Decimal(n)
  }

  /** Validation accepts exactly the canonical decimal strings of 1 .. 2^32 - 1. */
  lemma ValidUserIDsAreCanonical(id: string)
    ensures ValidUserID(id) <==> exists n: nat :: 1 <= n <= UINT32_MAX && IsDecimalOf(id, n)
  {
    ValidIsCanonical(id);
    if ValidUserID(id) {
      CanonicalIsDecimal(id);
      assert IsDecimalOf(id, ParseDigits(id));
    }
    forall n: nat | 1 <= n <= UINT32_MAX && IsDecimalOf(id, n) ensures ValidUserID(id) {
    }
  }

  // ----- splitting -----

  /** Position of the first '/', or the length. */
  function Slash(s: string): (i: nat)
    ensures i <= |s|
    ensures i < |s| ==> s[i] == '/'
    ensures forall k | 0 <= k < i :: s[k] != '/'
  {
    if s == "" || s[0] == '/' then 0 else 1 + Slash(s[1..])
  }

  /** strings.Split(s, "/"). */
  function Split(s: string): (parts: seq<string>)
    ensures parts != []
    decreases |s|
  {
    var i := Slash(s);
    if i == |s| then [s] else [s[..i]] + Split(s[i + 1..])
  }

  predicate SlashFree(s: string) {
    forall k | 0 <= k < |s| :: s[k] != '/'
  }

  lemma SplitCons(head: string, rest: string)
    requires SlashFree(head)
    ensures Split(head + "/" + rest) == [head] + Split(rest)
  {
    var s := head + "/" + rest;
    assert s[|head|] == '/';
    assert Slash(s) == |head|;
    assert s[..|head|] == head && s[|head| + 1..] == rest;
  }

  lemma SplitOne(s: string)
    requires SlashFree(s)
    ensures Split(s) == [s]
  {
  }

  function Join(parts: seq<string>): string
    requires parts != []
  {
    if |parts| == 1 then parts[0] else parts[0] + "/" + Join(parts[1..])
  }

  lemma {:induction false} SplitOfJoin(parts: seq<string>)
    requires parts != [] && forall i | 0 <= i < |parts| :: SlashFree(parts[i])
    ensures Split(Join(parts)) == parts
  {
    if |parts| == 1 {
      SplitOne(parts[0]);
    } else {
      SplitOfJoin(parts[1..]);
      SplitCons(parts[0], Join(parts[1..]));
    }
  }

  lemma JoinCons(head: string, rest: seq<string>)
    requires rest != []
    ensures Join([head] + rest) == head + "/" + Join(rest)
  {
    assert ([head] + rest)[1..] == rest;
  }

  lemma SplitAtSlash(s: string)
    requires Slash(s) < |s|
    ensures var head, rest := s[..Slash(s)], s[Slash(s) + 1..];
      s == head + "/" + rest && Split(s) == [head] + Split(rest)
  {
    assert s == s[..Slash(s)] + [s[Slash(s)]] + s[Slash(s) + 1..];
  }

  lemma {:induction false} JoinOfSplit(s: string)
    ensures Join(Split(s)) == s
    decreases |s|
  {
    if Slash(s) == |s| {
      assert Split(s) == [s];
    } else {
      var head, rest := s[..Slash(s)], s[Slash(s) + 1..];
      JoinOfSplit(rest);
      JoinCons(head, Split(rest));
      SplitAtSlash(s);
    }
  }

  // ----- the two parsers -----

  /** projection.parseHSIKey. */
  function ParseHSIKey(key: string): Option<(string, string)> {
    var parts := Split(key);
    if |parts| != 4 || parts[0] != "configs" || parts[2] != "hsi" then None else Some((parts[1], parts[3]))
  }

  /** server.parseHSIConfigKey. */
  function ParseHSIConfigKey(key: string): Option<(string, string)> {
    if !("configs/" <= key) then None
    else
      var parts := Split(key[|"configs/"|..]);
      if |parts| != 3 || parts[1] != "hsi" || parts[0] == "" || parts[2] == "" then None
      else Some((parts[0], parts[2]))
  }

  /** The parts of an HSI key with nothing for the node or nothing for the user. */
  predicate MissingIdentifier(parts: seq<string>) {
    |parts| == 4 && parts[0] == "configs" && parts[2] == "hsi" && (parts[1] == "" || parts[3] == "")
  }

  /** On every string whatever the two parsers give the same answer, except exactly on keys of the
      right shape with an empty node or user; those only the projection's accepts. */
  lemma ParsersAgree(key: string)
    ensures ParseHSIConfigKey(key) == ParseHSIKey(key) <==> !MissingIdentifier(Split(key))
    ensures MissingIdentifier(Split(key)) ==> ParseHSIKey(key).Some? && ParseHSIConfigKey(key).None?
  {
    if "configs/" <= key {
      var rest := key[|"configs/"|..];
      assert key == "configs" + "/" + rest;
      SplitCons("configs", rest);
    } else {
      JoinOfSplit(key);
    }
  }

  /** The difference is real: a key with nothing after its last '/' is read by one and not the other. */
  lemma EmptyUserSplitsTheParsers(node: string)
    requires SlashFree(node)
    ensures var key := Join(["configs", node, "hsi", ""]);
      ParseHSIKey(key) == Some((node, "")) && ParseHSIConfigKey(key) == None
  {
    SplitOfJoin(["configs", node, "hsi", ""]);
    ParsersAgree(Join(["configs", node, "hsi", ""]));
  }

  // ----- printed keys -----

  function Parts(key: Key): seq<string> {
    match key
    case HsiKey(node, user) => ["configs", node, "hsi", user]
    case DnsKey(node, user) => ["configs", node, "dns", user]
    case CountKey(node) => ["user_counts", node, ""]
    case NodeKey(node) => ["nodes", node]
  }

  /** configs/{node}/hsi/{user}, configs/{node}/dns/{user}, user_counts/{node}/ and nodes/{node}. */
  function Print(key: Key): string {
    Join(Parts(key))
  }

  ghost predicate ValidKey(key: Key) {
    && ValidNodeID(key.node)
    && (key.HsiKey? || key.DnsKey? ==> ValidUserID(key.user))
  }

  lemma SplitOfPrint(key: Key)
    requires ValidKey(key)
    ensures Split(Print(key)) == Parts(key)
  {
    forall k | 0 <= k < |key.node| ensures key.node[k] != '/' { assert IsNodeChar(key.node[k]); }
    SplitOfJoin(Parts(key));
  }

  /** For validated identifiers both parsers return exactly what an HSI key was printed from, and
      nothing for the other kinds. */
  lemma KeysRoundTrip(key: Key)
    requires ValidKey(key)
    ensures ParseHSIKey(Print(key)) == if key.HsiKey? then Some((key.node, key.user)) else None
    ensures ParseHSIConfigKey(Print(key)) == ParseHSIKey(Print(key))
  {
    SplitOfPrint(key);
    ParsersAgree(Print(key));
  }

  /** No two keys are printed alike. */
  lemma KeysNeverCollide(a: Key, b: Key)
    requires ValidKey(a) && ValidKey(b) && Print(a) == Print(b)
    ensures a == b
  {
    SplitOfPrint(a);
    SplitOfPrint(b);
    assert Parts(a)[0] == Parts(b)[0] && Parts(a)[1] == Parts(b)[1];
    if |Parts(a)| == 4 {
      assert Parts(a)[2] == Parts(b)[2] && Parts(a)[3] == Parts(b)[3];
    }
  }

  lemma JoinTwo(a: string, b: string)
    ensures Join([a, b]) == a + "/" + b
  {
    assert [a, b][1..] == [b];
  }

  lemma JoinThree(a: string, b: string, c: string)
    ensures Join([a, b, c]) == a + "/" + b + "/" + c
  {
    JoinTwo(b, c);
    assert [a, b, c][1..] == [b, c];
    assert a + "/" + (b + "/" + c) == a + "/" + b + "/" + c;
  }

  lemma JoinFour(a: string, b: string, c: string, d: string)
    ensures Join([a, b, c, d]) == a + "/" + b + "/" + c + "/" + d
  {
    JoinThree(b, c, d);
    assert [a, b, c, d][1..] == [b, c, d];
    assert a + "/" + (b + "/" + c + "/" + d) == a + "/" + b + "/" + c + "/" + d;
  }

  /** The four key families, spelled out. */
  lemma PrintedKeys(node: string, user: string)
    ensures Print(HsiKey(node, user)) == "configs" + "/" + node + "/" + "hsi" + "/" + user
    ensures Print(DnsKey(node, user)) == "configs" + "/" + node + "/" + "dns" + "/" + user
    ensures Print(CountKey(node)) == "user_counts" + "/" + node + "/" + ""
    ensures Print(NodeKey(node)) == "nodes" + "/" + node
  {
    JoinFour("configs", node, "hsi", user);
    JoinFour("configs", node, "dns", user);
    JoinThree("user_counts", node, "");
    JoinTwo("nodes", node);
  }
}
