/** Every leaf of a dashboard's JSON, with the pointer that leads to it
    (grafana_review.py), against the evaluation of JSON pointers in sections 3 and
    4 of RFC 6901. */
module GrafanaLeaves {
  import opened Results
  import opened Text

  datatype Atom = NullAtom | BoolAtom(b: bool) | NumberAtom(n: real) | NonFinite | TextAtom(t: string)

  datatype Member = Member(key: string, child: Document)

  /** JSON as parsed: an object keeps its members in order. */
  datatype Document = Scalar(atom: Atom) | Object(members: seq<Member>) | List(items: seq<Document>)

  datatype Leaf = Leaf(pointer: string, value: Document)

  // Escaping

  /** `s.replace(c, sub)`. */
  function Replaced(s: string, c: char, sub: string): string {
    if s == "" then "" else (if s[0] == c then sub else [s[0]]) + Replaced(s[1..], c, sub)
  }

  /** A key as a reference token. */
  function Escape(key: string): string {
    Replaced(Replaced(key, '~', "~0"), '/', "~1")
  }

  /** Reading a token back; a tilde must be followed by 0 or 1. */
  function Unescape(token: string): Option<string> {
    if token == "" then Some("")
    else if token[0] != '~' then
      match Unescape(token[1..])
      case None => None
      case Some(rest) => Some([token[0]] + rest)
    else if |token| == 1 || (token[1] != '0' && token[1] != '1') then None
    else
      match Unescape(token[2..])
      case None => None
      case Some(rest) => Some((if token[1] == '0' then "~" else "/") + rest)
  }

  predicate NoSlash(s: string) {
    forall i | 0 <= i < |s| :: s[i] != '/'
  }

  lemma {:induction false} ReplacedConcat(s: string, t: string, c: char, sub: string)
    ensures Replaced(s + t, c, sub) == Replaced(s, c, sub) + Replaced(t, c, sub)
  {
    if s == "" {
      assert s + t == t;
    } else {
      assert (s + t)[1..] == s[1..] + t;
      ReplacedConcat(s[1..], t, c, sub);
    }
  }

  lemma EscapeStep(key: string)
    requires key != ""
    ensures Escape(key) == (if key[0] == '~' then "~0" else if key[0] == '/' then "~1" else [key[0]]) + Escape(key[1..])
  {
    var first := if key[0] == '~' then "~0" else [key[0]];
    ReplacedConcat(first, Replaced(key[1..], '~', "~0"), '/', "~1");
    assert Replaced("~0", '/', "~1") == "~0" by {
      assert "~0"[1..] == "0" && "0"[1..] == "";
    }
    assert [key[0]][1..] == "";
  }

  /** Escaping is invertible and removes every slash. */
  lemma {:induction false} EscapeRoundTrip(key: string)
    ensures Unescape(Escape(key)) == Some(key) && NoSlash(Escape(key))
  {
    if key != "" {
      EscapeStep(key);
      EscapeRoundTrip(key[1..]);
      var head := if key[0] == '~' then "~0" else if key[0] == '/' then "~1" else [key[0]];
      var rest := Escape(key[1..]);
      assert (head + rest)[|head|..] == rest;
      assert key == [key[0]] + key[1..];
      hide Escape;
    }
  }

  // Pointers and paths

  type Path = seq<string>

  /** The pointer of a path of unescaped tokens. */
  function Pointer(path: Path): string {
    if path == [] then "" else Pointer(path[..|path| - 1]) + "/" + Escape(path[|path| - 1])
  }

  function SlashAt(s: string): (n: nat)
    ensures n <= |s| && NoSlash(s[..n]) && (n < |s| ==> s[n] == '/')
  {
    if s == "" || s[0] == '/' then 0 else 1 + SlashAt(s[1..])
  }

  /** The tokens of a pointer, which is empty or starts with a slash. */
  function Tokens(pointer: string): Option<Path> {
    if pointer == "" then Some([])
    else if pointer[0] != '/' then None
    else
      var n := SlashAt(pointer[1..]);
      match Unescape(pointer[1..n + 1])
      case None => None
      case Some(token) =>
        match Tokens(pointer[n + 1..])
        case None => None
        case Some(rest) => Some([token] + rest)
  }

  lemma {:induction false} PointerConcat(path: Path, rest: Path)
    ensures Pointer(path + rest) == Pointer(path) + Pointer(rest)
  {
    hide Escape;
    if rest == [] {
      assert path + rest == path;
    } else {
      var n := |rest| - 1;
      var all := path + rest;
      PointerConcat(path, rest[..n]);
      assert all[..|all| - 1] == path + rest[..n] && all[|all| - 1] == rest[n];
      SlashConcat(Pointer(path), Pointer(rest[..n]), Escape(rest[n]));
    }
  }

  lemma SlashConcat(a: string, b: string, c: string)
    ensures a + b + "/" + c == a + (b + "/" + c)
  {
  }

  lemma SlashAfter(token: string, rest: string)
    requires NoSlash(token) && (rest == "" || rest[0] == '/')
    ensures SlashAt(token + rest) == |token|
  {
    var s := token + rest;
    assert forall i | 0 <= i < |token| :: s[i] == token[i];
    assert rest != "" ==> s[|token|] == '/';
    assert forall i | 0 <= i < SlashAt(s) :: s[..SlashAt(s)][i] == s[i];
  }

  lemma TokensStep(key: string, tail: string, rest: Path)
    requires tail == "" || tail[0] == '/'
    requires Tokens(tail) == Some(rest)
    ensures Tokens("/" + Escape(key) + tail) == Some([key] + rest)
  {
    hide Escape, Unescape;
    EscapeRoundTrip(key);
    var token := Escape(key);
    var pointer := "/" + token + tail;
    assert pointer[1..] == token + tail;
    SlashAfter(token, tail);
    assert pointer[1..|token| + 1] == token && pointer[|token| + 1..] == tail;
  }

  lemma PointerFirst(path: Path)
    requires path != []
    ensures Pointer(path) == "/" + Escape(path[0]) + Pointer(path[1..])
  {
    hide Escape;
    assert [path[0]][..0] == [];
    assert path == [path[0]] + path[1..];
    PointerConcat([path[0]], path[1..]);
  }

  /** A pointer reads back as its path; so different paths have different pointers. */
  lemma {:induction false} PointerRoundTrip(path: Path)
    ensures Tokens(Pointer(path)) == Some(path)
    ensures Pointer(path) == "" || Pointer(path)[0] == '/'
    decreases |path|
  {
    if path != [] {
      hide Escape, Pointer, Tokens;
      PointerFirst(path);
      PointerRoundTrip(path[1..]);
      TokensStep(path[0], Pointer(path[1..]), path[1..]);
      assert path == [path[0]] + path[1..];
    } else {
      assert Pointer(path) == "";
    }
  }

  // Evaluation

  /** An array index: a decimal numeral without a leading zero. */
  function IndexOf(token: string): Option<nat> {
    if token != "" && AllDigits(token) && (token == "0" || token[0] != '0') then Some(Value(token)) else None
  }

  function Find(members: seq<Member>, key: string): Option<Document> {
    if members == [] then None
    else if members[0].key == key then Some(members[0].child)
    else Find(members[1..], key)
  }

  /** The value a path leads to. */
  function Walk(d: Document, path: Path): Option<Document>
    decreases |path|
  {
    if path == [] then Some(d)
    else
      match d
      case Scalar(_) => None
      case Object(members) =>
        (match Find(members, path[0])
         case None => None
         case Some(child) => Walk(child, path[1..]))
      case List(items) =>
        match IndexOf(path[0])
        case None => None
        case Some(i) => if i < |items| then Walk(items[i], path[1..]) else None
  }

  function Eval(d: Document, pointer: string): Option<Document> {
    match Tokens(pointer)
    case None => None
    case Some(path) => Walk(d, path)
  }

  // Leaves

  predicate IsLeaf(d: Document) {
    match d
    case Scalar(_) => true
    case Object(members) => members == []
    case List(items) => items == []
  }

  /** The leaves under a pointer, in document order; a nonfinite number is refused. */
  function LeavesUnder(d: Document, pointer: string): Result<seq<Leaf>> {
    match d
    case Scalar(atom) => if atom == NonFinite then Err else Ok([Leaf(pointer, d)])
    case Object(members) => if members == [] then Ok([Leaf(pointer, d)]) else MemberLeaves(members, pointer)
    case List(items) => if items == [] then Ok([Leaf(pointer, d)]) else ItemLeaves(items, pointer)
  }

  function MemberLeaves(members: seq<Member>, pointer: string): Result<seq<Leaf>> {
    if members == [] then Ok([])
    else
      var n := |members| - 1;
      var earlier :- MemberLeaves(members[..n], pointer);
      var last :- LeavesUnder(members[n].child, pointer + "/" + Escape(members[n].key));
      Ok(earlier + last)
  }

  function ItemLeaves(items: seq<Document>, pointer: string): Result<seq<Leaf>> {
    if items == [] then Ok([])
    else
      var n := |items| - 1;
      var earlier :- ItemLeaves(items[..n], pointer);
      var last :- LeavesUnder(items[n], pointer + "/" + Decimal(n));
      Ok(earlier + last)
  }

  function Leaves(d: Document): Result<seq<Leaf>> {
    LeavesUnder(d, "")
  }

  /** Parsing an object refuses a repeated key. */
  predicate UniqueMembers(members: seq<Member>) {
    forall i, j | 0 <= i < j < |members| :: members[i].key != members[j].key
  }

  function Keys(members: seq<Member>): set<string> {
    set m | m in members :: m.key
  }

  /** No key is repeated exactly when there are as many keys as members. */
  lemma {:induction false} KeysOnce(members: seq<Member>)
    ensures |Keys(members)| <= |members|
    ensures UniqueMembers(members) <==> |Keys(members)| == |members|
  {
    if members != [] {
      var n := |members| - 1;
      KeysOnce(members[..n]);
      assert members == members[..n] + [members[n]];
      assert Keys(members) == Keys(members[..n]) + {members[n].key};
      assert members[n].key in Keys(members[..n]) <==> exists i | 0 <= i < n :: members[i].key == members[n].key;
    }
  }

  method UniqueObject(pairs: seq<Member>) returns (r: Result<Document>)
    ensures r.Ok? <==> UniqueMembers(pairs)
    ensures r.Ok? ==> r.value == Object(pairs)
  {
    var members: seq<Member>, keys: set<string> := [], {};
    for i := 0 to |pairs|
      invariant members == pairs[..i] && UniqueMembers(members)
      invariant keys == set j | 0 <= j < i :: pairs[j].key
    {
      if pairs[i].key in keys {
        return Err;
      }
      members := members + [pairs[i]];
      keys := keys + {pairs[i].key};
    }
    assert members == pairs;
    return Ok(Object(members));
  }

  // Leaves by path

  datatype Placed = Placed(path: Path, value: Document)

  function Below(token: string, leaves: seq<Placed>): (r: seq<Placed>)
    ensures |r| == |leaves| && forall i | 0 <= i < |r| :: r[i] == Placed([token] + leaves[i].path, leaves[i].value)
  {
    seq(|leaves|, i requires 0 <= i < |leaves| => Placed([token] + leaves[i].path, leaves[i].value))
  }

  /** The leaves of a document and the paths to them. */
  function PathsOf(d: Document): seq<Placed> {
    if IsLeaf(d) then [Placed([], d)]
    else if d.Object? then MemberPaths(d.members)
    else ItemPaths(d.items)
  }

  function MemberPaths(members: seq<Member>): seq<Placed> {
    if members == [] then []
    else
      var n := |members| - 1;
      MemberPaths(members[..n]) + Below(members[n].key, PathsOf(members[n].child))
  }

  function ItemPaths(items: seq<Document>): seq<Placed> {
    if items == [] then []
    else ItemPaths(items[..|items| - 1]) + Below(Decimal(|items| - 1), PathsOf(items[|items| - 1]))
  }

  function Rendered(pointer: string, leaves: seq<Placed>): (r: seq<Leaf>)
    ensures |r| == |leaves| && forall i | 0 <= i < |r| ::
      r[i] == Leaf(pointer + Pointer(leaves[i].path), leaves[i].value)
  {
    seq(|leaves|, i requires 0 <= i < |leaves| => Leaf(pointer + Pointer(leaves[i].path), leaves[i].value))
  }

  /** No number in the document is nonfinite. */
  predicate Finite(d: Document) {
    match d
    case Scalar(atom) => atom != NonFinite
    case Object(members) => forall m | m in members :: Finite(m.child)
    case List(items) => forall item | item in items :: Finite(item)
  }

  lemma RenderedBelow(pointer: string, token: string, leaves: seq<Placed>)
    ensures Rendered(pointer, Below(token, leaves)) == Rendered(pointer + "/" + Escape(token), leaves)
  {
    hide Pointer, Escape;
    forall i | 0 <= i < |leaves|
      ensures pointer + Pointer([token] + leaves[i].path) == pointer + "/" + Escape(token) + Pointer(leaves[i].path)
    {
      PointerFirst([token] + leaves[i].path);
      assert ([token] + leaves[i].path)[1..] == leaves[i].path;
    }
  }

  lemma RenderedConcat(pointer: string, a: seq<Placed>, b: seq<Placed>)
    ensures Rendered(pointer, a + b) == Rendered(pointer, a) + Rendered(pointer, b)
  {
    hide Pointer;
  }

  lemma {:induction false} DigitsUnescaped(digits: string)
    requires AllDigits(digits)
    ensures Escape(digits) == digits
  {
    if digits != "" {
      EscapeStep(digits);
      DigitsUnescaped(digits[1..]);
      assert digits == [digits[0]] + digits[1..];
    }
  }

  /** The leaves are refused exactly when a number is nonfinite; otherwise they are
      the document's leaves with the pointers of their paths. */
  lemma {:induction false} LeavesArePaths(d: Document, pointer: string)
    ensures LeavesUnder(d, pointer).Ok? <==> Finite(d)
    ensures Finite(d) ==> LeavesUnder(d, pointer) == Ok(Rendered(pointer, PathsOf(d)))
    decreases d
  {
    hide Pointer, Escape;
    RenderedRoot(pointer, d);
    if d.Object? && d.members != [] {
      MembersArePaths(d.members, pointer);
    } else if d.List? && d.items != [] {
      ItemsArePaths(d.items, pointer);
    }
  }

  lemma RenderedRoot(pointer: string, d: Document)
    ensures Rendered(pointer, [Placed([], d)]) == [Leaf(pointer, d)]
  {
    assert pointer + Pointer([]) == pointer;
  }

  lemma {:induction false} MembersArePaths(members: seq<Member>, pointer: string)
    ensures MemberLeaves(members, pointer).Ok? <==> forall m | m in members :: Finite(m.child)
    ensures MemberLeaves(members, pointer).Ok? ==>
      MemberLeaves(members, pointer) == Ok(Rendered(pointer, MemberPaths(members)))
    decreases members
  {
    hide Pointer, Escape, Finite, Rendered;
    if members != [] {
      var n := |members| - 1;
      var m := members[n];
      assert members == members[..n] + [m];
      MembersArePaths(members[..n], pointer);
      LeavesArePaths(m.child, pointer + "/" + Escape(m.key));
      RenderedBelow(pointer, m.key, PathsOf(m.child));
      RenderedConcat(pointer, MemberPaths(members[..n]), Below(m.key, PathsOf(m.child)));
    }
  }

  lemma {:induction false} ItemsArePaths(items: seq<Document>, pointer: string)
    ensures ItemLeaves(items, pointer).Ok? <==> forall item | item in items :: Finite(item)
    ensures ItemLeaves(items, pointer).Ok? ==> ItemLeaves(items, pointer) == Ok(Rendered(pointer, ItemPaths(items)))
    decreases items
  {
    hide Pointer, Escape, Finite, Rendered;
    if items != [] {
      var n := |items| - 1;
      assert items == items[..n] + [items[n]];
      ItemsArePaths(items[..n], pointer);
      DigitsUnescaped(Decimal(n));
      LeavesArePaths(items[n], pointer + "/" + Escape(Decimal(n)));
      RenderedBelow(pointer, Decimal(n), PathsOf(items[n]));
      RenderedConcat(pointer, ItemPaths(items[..n]), Below(Decimal(n), PathsOf(items[n])));
    }
  }

  // Paths lead to their leaves, each leaf has one

  /** Objects as the parser accepts them, at every depth. */
  predicate UniqueKeys(d: Document) {
    match d
    case Scalar(_) => true
    case Object(members) => UniqueMembers(members) && forall m | m in members :: UniqueKeys(m.child)
    case List(items) => forall item | item in items :: UniqueKeys(item)
  }

  lemma {:induction false} FindAt(members: seq<Member>, i: nat)
    requires i < |members| && UniqueMembers(members)
    ensures Find(members, members[i].key) == Some(members[i].child)
  {
    if i > 0 {
      FindAt(members[1..], i - 1);
    }
  }

  lemma {:induction false} FoundMember(members: seq<Member>, key: string)
    requires Find(members, key).Some?
    ensures Member(key, Find(members, key).value) in members
  {
    if members[0].key != key {
      FoundMember(members[1..], key);
    }
  }

  /** A numeral without a leading zero is the numeral of its value. */
  lemma {:induction false} NumeralOf(s: string)
    requires s != "" && AllDigits(s) && (s == "0" || s[0] != '0')
    ensures Decimal(Value(s)) == s && (s == "0" <==> Value(s) == 0)
  {
    var n := |s| - 1;
    var last := s[n] as int - '0' as int;
    assert s == s[..n] + [s[n]];
    if n == 0 {
      assert Value(s[..0]) == 0;
      assert Value(s) == last;
    } else {
      NumeralOf(s[..n]);
      DecimalStep(Value(s[..n]), last);
      assert Value(s) == Value(s[..n]) * 10 + last;
      hide Decimal, Value;
    }
  }

  lemma DecimalStep(tens: nat, digit: nat)
    requires tens > 0 && digit < 10
    ensures Decimal(tens * 10 + digit) == Decimal(tens) + [Digit(digit)]
  {
    assert (tens * 10 + digit) / 10 == tens && (tens * 10 + digit) % 10 == digit;
  }

  lemma IndexOfDecimal(i: nat)
    ensures IndexOf(Decimal(i)) == Some(i)
  {
    DecimalValue(i);
    LeadingDigit(i);
  }

  lemma {:induction false} LeadingDigit(i: nat)
    ensures Decimal(i) == "0" || Decimal(i)[0] != '0'
  {
    if i >= 10 {
      LeadingDigit(i / 10);
      DecimalValue(i / 10);
      ZeroValue();
    }
  }

  lemma ZeroValue()
    ensures Value("0") == 0
  {
    assert "0"[..0] == "";
  }

  lemma {:induction false} InMembers(members: seq<Member>, p: Placed)
    ensures p in MemberPaths(members) <==>
      p.path != [] && exists m | m in members :: m.key == p.path[0] && Placed(p.path[1..], p.value) in PathsOf(m.child)
  {
    if members != [] {
      var n := |members| - 1;
      var m := members[n];
      InMembers(members[..n], p);
      InBelow(m.key, PathsOf(m.child), p);
      assert members == members[..n] + [m];
    }
  }

  lemma InBelow(token: string, leaves: seq<Placed>, p: Placed)
    ensures p in Below(token, leaves) <==> p.path != [] && p.path[0] == token && Placed(p.path[1..], p.value) in leaves
  {
    var below := Below(token, leaves);
    if p in below {
      var i :| 0 <= i < |below| && below[i] == p;
      assert p.path[1..] == leaves[i].path;
    }
    if p.path != [] && p.path[0] == token && Placed(p.path[1..], p.value) in leaves {
      var i :| 0 <= i < |leaves| && leaves[i] == Placed(p.path[1..], p.value);
      assert p.path == [token] + p.path[1..];
      assert below[i] == p;
    }
  }

  lemma {:induction false} InItems(items: seq<Document>, p: Placed)
    ensures p in ItemPaths(items) <==>
      p.path != [] && exists i | 0 <= i < |items| ::
        Decimal(i) == p.path[0] && Placed(p.path[1..], p.value) in PathsOf(items[i])
  {
    if items != [] {
      var n := |items| - 1;
      InItems(items[..n], p);
      InBelow(Decimal(n), PathsOf(items[n]), p);
      hide Decimal;
      assert forall i | 0 <= i < n :: items[..n][i] == items[i];
    }
  }

  /** A path is listed with a value exactly when it leads to that value and the
      value is a scalar or an empty container. */
  lemma {:induction false} PathsLead(d: Document, p: Placed)
    requires UniqueKeys(d)
    ensures p in PathsOf(d) <==> Walk(d, p.path) == Some(p.value) && IsLeaf(p.value)
    decreases |p.path|
  {
    if IsLeaf(d) {
      assert p.path != [] && d.List? ==> Walk(d, p.path) == None;
    } else if p.path == [] {
      if d.Object? {
        InMembers(d.members, p);
      } else {
        InItems(d.items, p);
      }
    } else if d.Object? {
      MemberLeads(d.members, p);
    } else {
      ItemLeads(d.items, p);
    }
  }

  lemma MemberLeads(members: seq<Member>, p: Placed)
    requires p.path != [] && UniqueMembers(members) && forall m | m in members :: UniqueKeys(m.child)
    ensures p in MemberPaths(members) <==> Walk(Object(members), p.path) == Some(p.value) && IsLeaf(p.value)
    decreases |p.path|, 0
  {
    InMembers(members, p);
    var rest := Placed(p.path[1..], p.value);
    forall m | m in members
      ensures rest in PathsOf(m.child) <==> Walk(m.child, rest.path) == Some(rest.value) && IsLeaf(rest.value)
    {
      PathsLead(m.child, rest);
    }
    forall i | 0 <= i < |members|
      ensures Find(members, members[i].key) == Some(members[i].child)
    {
      FindAt(members, i);
    }
    if Find(members, p.path[0]).Some? {
      FoundMember(members, p.path[0]);
    }
    hide PathsOf, MemberPaths, IsLeaf, UniqueKeys, UniqueMembers, Find;
  }

  lemma ItemLeads(items: seq<Document>, p: Placed)
    requires p.path != [] && forall item | item in items :: UniqueKeys(item)
    ensures p in ItemPaths(items) <==> Walk(List(items), p.path) == Some(p.value) && IsLeaf(p.value)
    decreases |p.path|, 0
  {
    InItems(items, p);
    var rest := Placed(p.path[1..], p.value);
    forall i | 0 <= i < |items|
      ensures rest in PathsOf(items[i]) <==> Walk(items[i], rest.path) == Some(rest.value) && IsLeaf(rest.value)
      ensures IndexOf(Decimal(i)) == Some(i)
    {
      assert items[i] in items;
      PathsLead(items[i], rest);
      IndexOfDecimal(i);
    }
    if IndexOf(p.path[0]).Some? {
      NumeralOf(p.path[0]);
    }
    hide PathsOf, ItemPaths, IsLeaf, UniqueKeys, Decimal;
  }

  ghost predicate DistinctPaths(leaves: seq<Placed>) {
    forall i, j | 0 <= i < j < |leaves| :: leaves[i].path != leaves[j].path
  }

  lemma BelowDistinct(token: string, leaves: seq<Placed>)
    requires DistinctPaths(leaves)
    ensures DistinctPaths(Below(token, leaves))
  {
    var below := Below(token, leaves);
    forall i, j | 0 <= i < j < |below|
      ensures below[i].path != below[j].path
    {
      assert below[i].path[1..] == leaves[i].path && below[j].path[1..] == leaves[j].path;
    }
  }

  lemma JoinedDistinct(a: seq<Placed>, token: string, b: seq<Placed>)
    requires DistinctPaths(a) && DistinctPaths(b)
    requires forall p | p in a :: p.path != [] && p.path[0] != token
    ensures DistinctPaths(a + Below(token, b))
  {
    BelowDistinct(token, b);
    var all := a + Below(token, b);
    forall i, j | 0 <= i < j < |all|
      ensures all[i].path != all[j].path
    {
      if i < |a| <= j {
        assert a[i] in a;
        assert all[j].path[0] == token;
      }
    }
  }

  /** No path is listed twice. */
  lemma {:induction false} PathsDistinct(d: Document)
    requires UniqueKeys(d)
    ensures DistinctPaths(PathsOf(d))
    decreases d
  {
    if IsLeaf(d) {
    } else if d.Object? {
      MemberPathsDistinct(d.members);
    } else {
      ItemPathsDistinct(d.items);
    }
  }

  lemma {:induction false} MemberPathsDistinct(members: seq<Member>)
    requires UniqueMembers(members) && forall m | m in members :: UniqueKeys(m.child)
    ensures DistinctPaths(MemberPaths(members))
    decreases members
  {
    hide DistinctPaths, UniqueKeys, Below;
    if members == [] {
      NothingDistinct();
    } else {
      var n := |members| - 1;
      assert members[n] in members;
      MemberPathsDistinct(members[..n]);
      PathsDistinct(members[n].child);
      forall p | p in MemberPaths(members[..n])
        ensures p.path != [] && p.path[0] != members[n].key
      {
        InMembers(members[..n], p);
      }
      JoinedDistinct(MemberPaths(members[..n]), members[n].key, PathsOf(members[n].child));
    }
  }

  lemma NothingDistinct()
    ensures DistinctPaths([])
  {
  }

  lemma {:induction false} ItemPathsDistinct(items: seq<Document>)
    requires forall item | item in items :: UniqueKeys(item)
    ensures DistinctPaths(ItemPaths(items))
    decreases items
  {
    hide DistinctPaths, UniqueKeys, Below, Decimal;
    if items == [] {
      NothingDistinct();
    } else {
      var n := |items| - 1;
      assert items[n] in items;
      ItemPathsDistinct(items[..n]);
      PathsDistinct(items[n]);
      forall p | p in ItemPaths(items[..n])
        ensures p.path != [] && p.path[0] != Decimal(n)
      {
        InItems(items[..n], p);
        DecimalValue(n);
        var i :| 0 <= i < n && Decimal(i) == p.path[0];
        DecimalValue(i);
      }
      JoinedDistinct(ItemPaths(items[..n]), Decimal(n), PathsOf(items[n]));
    }
  }

  // The theorem

  lemma {:induction false} UnescapeRoundTrip(token: string)
    requires Unescape(token).Some? && NoSlash(token)
    ensures Escape(Unescape(token).value) == token
    decreases |token|
  {
    if token != "" {
      var k := if token[0] == '~' then 2 else 1;
      var rest := token[k..];
      UnescapeRoundTrip(rest);
      var key := Unescape(token).value;
      assert key[1..] == Unescape(rest).value;
      EscapeStep(key);
      hide Escape;
      assert token == token[..k] + rest;
    }
  }

  /** A well-formed pointer is the pointer of the path it reads as. */
  lemma {:induction false} TokensRoundTrip(pointer: string)
    requires Tokens(pointer).Some?
    ensures Pointer(Tokens(pointer).value) == pointer
    decreases |pointer|
  {
    hide Escape, Unescape, Pointer;
    if pointer == "" {
      assert Pointer([]) == "" by { EmptyPointer(); }
    } else {
      var n := SlashAt(pointer[1..]);
      var token, tail := pointer[1..n + 1], pointer[n + 1..];
      assert token == pointer[1..][..n];
      UnescapeRoundTrip(token);
      TokensRoundTrip(tail);
      var path := Tokens(pointer).value;
      PointerFirst(path);
      assert path[1..] == Tokens(tail).value;
      assert pointer == "/" + token + tail;
    }
  }

  lemma EmptyPointer()
    ensures Pointer([]) == ""
  {
  }

  /** A document's leaves are complete and addressable: a pointer is listed with a
      value exactly when it evaluates to that value and the value is a scalar or an
      empty container, and no pointer is listed twice. */
  lemma LeavesComplete(d: Document)
    requires UniqueKeys(d) && Finite(d)
    ensures Leaves(d).Ok?
    ensures forall pointer, v :: Leaf(pointer, v) in Leaves(d).value <==> Eval(d, pointer) == Some(v) && IsLeaf(v)
    ensures forall i, j | 0 <= i < j < |Leaves(d).value| :: Leaves(d).value[i].pointer != Leaves(d).value[j].pointer
  {
    LeavesArePaths(d, "");
    PathsDistinct(d);
    var placed, leaves := PathsOf(d), Leaves(d).value;
    hide PathsOf, LeavesUnder, Walk, IsLeaf, UniqueKeys, Finite, Tokens, Pointer;
    forall i | 0 <= i < |leaves|
      ensures leaves[i].pointer == Pointer(placed[i].path) && leaves[i].value == placed[i].value
      ensures Tokens(leaves[i].pointer) == Some(placed[i].path)
    {
      assert "" + Pointer(placed[i].path) == Pointer(placed[i].path);
      PointerRoundTrip(placed[i].path);
    }
    forall pointer, v
      ensures Leaf(pointer, v) in leaves <==> Eval(d, pointer) == Some(v) && IsLeaf(v)
    {
      if Leaf(pointer, v) in leaves {
        var i :| 0 <= i < |leaves| && leaves[i] == Leaf(pointer, v);
        PathsLead(d, placed[i]);
      }
      if Eval(d, pointer) == Some(v) && IsLeaf(v) {
        TokensRoundTrip(pointer);
        var p := Placed(Tokens(pointer).value, v);
        PathsLead(d, p);
        var i :| 0 <= i < |placed| && placed[i] == p;
        assert leaves[i] == Leaf(pointer, v);
      }
    }
  }
}
