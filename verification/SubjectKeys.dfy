/** Correlation keys: which subjects are the same subject. */
module SubjectKeys {
  import opened CanonicalJson
  import opened Models

  /** `str.lower`, `str()` of a non-string, and the truncated SHA-256 of a canonical JSON text. */
  datatype Codec = Codec(lower: string -> string, show: Json -> string, digest: Json -> string)

  function Format(v: Json): string
    requires IsSubject(v)
  {
    Get(v.members, "format").value.s
  }

  function GetOr(members: seq<Member>, name: string): Json {
    var v := Get(members, name);
    if v.None? then Str("") else v.value
  }

  function Shown(v: Json, c: Codec): string {
    if v.Str? then v.s else c.show(v)
  }

  /** None where deriving the key raises. */
  function CorrelationKey(v: Json, c: Codec): (key: Option<string>)
    requires IsSubject(v)
    ensures key.Some? ==> key.value != ""
    decreases v
  {
    var fmt := Format(v);
    if fmt == "email" then
      var email := GetOr(v.members, "email");
      if email.Str? then Some("email:" + c.lower(email.s)) else None
    else if fmt == "phone_number" then Some("phone:" + Shown(GetOr(v.members, "phone_number"), c))
    else if fmt == "iss_sub" then
      Some("iss_sub:" + Shown(GetOr(v.members, "iss"), c) + "|" + Shown(GetOr(v.members, "sub"), c))
    else if fmt == "opaque" then Some("opaque:" + Shown(GetOr(v.members, "id"), c))
    else
      var user := Get(v.members, "user");
      if fmt == "complex" && user.Some? && user.value.Object? then
        if IsSubject(user.value) then CorrelationKey(user.value, c) else None
      else Some(fmt + ":" + StableMemberEncoding(v.members, c))
  }

  // ----- Nested users -----

  predicate HasUser(v: Json)
    requires IsSubject(v)
  {
    Format(v) == "complex" && Get(v.members, "user").Some? && IsSubject(Get(v.members, "user").value)
  }

  function Innermost(v: Json): (w: Json)
    requires IsSubject(v)
    ensures IsSubject(w) && !HasUser(w)
    decreases v
  {
    if HasUser(v) then Innermost(Get(v.members, "user").value) else v
  }

  /** At any nesting depth a complex subject has its innermost user's key. */
  lemma {:induction false} KeyOfInnermost(v: Json, c: Codec)
    requires IsSubject(v)
    ensures CorrelationKey(v, c) == CorrelationKey(Innermost(v), c)
    decreases v
  {
    if HasUser(v) {
      KeyOfInnermost(Get(v.members, "user").value, c);
    }
  }

  // ----- What a key identifies -----

  datatype Identity =
    | Email(lowered: string)
    | Phone(number: string)
    | IssSub(iss: string, sub: string)
    | Opaque(id: string)
    | Fallback(format: string, encoding: string)

  /** What the key of a subject is made from: the innermost user's identifier as text, or its encoding. */
  function IdentityOf(v: Json, c: Codec): Option<Identity>
    requires IsSubject(v)
  {
    OwnIdentity(Innermost(v), c)
  }

  function OwnIdentity(w: Json, c: Codec): Option<Identity>
    requires IsSubject(w)
  {
    var fmt, ms := Format(w), w.members;
    if fmt == "email" then
      if GetOr(ms, "email").Str? then Some(Email(c.lower(GetOr(ms, "email").s))) else None
    else if fmt == "phone_number" then Some(Phone(Shown(GetOr(ms, "phone_number"), c)))
    else if fmt == "iss_sub" then Some(IssSub(Shown(GetOr(ms, "iss"), c), Shown(GetOr(ms, "sub"), c)))
    else if fmt == "opaque" then Some(Opaque(Shown(GetOr(ms, "id"), c)))
    else if fmt == "complex" && Get(ms, "user").Some? && Get(ms, "user").value.Object? then None
    else Some(Fallback(fmt, StableMemberEncoding(ms, c)))
  }

  function Prefix(i: Identity): string {
    match i
    case Email(_) => "email"
    case Phone(_) => "phone"
    case IssSub(_, _) => "iss_sub"
    case Opaque(_) => "opaque"
    case Fallback(format, _) => format
  }

  function Text(i: Identity): string {
    match i
    case Email(e) => e
    case Phone(n) => n
    case IssSub(iss, sub) => iss + "|" + sub
    case Opaque(id) => id
    case Fallback(_, encoding) => encoding
  }

  function Rendered(i: Identity): string {
    match i
    case Email(e) => "email:" + e
    case Phone(n) => "phone:" + n
    case IssSub(iss, sub) => "iss_sub:" + iss + "|" + sub
    case Opaque(id) => "opaque:" + id
    case Fallback(format, encoding) => format + ":" + encoding
  }

  lemma RenderedSplits(i: Identity)
    ensures Rendered(i) == Prefix(i) + ":" + Text(i)
  {
    assert "email" + ":" == "email:" && "phone" + ":" == "phone:" && "opaque" + ":" == "opaque:";
    if i.IssSub? {
      assert "iss_sub:" + i.iss + "|" + i.sub == "iss_sub" + ":" + (i.iss + "|" + i.sub);
    }
  }

  /** Deriving the key raises exactly without an identity, and otherwise renders it. */
  lemma KeyIsRendered(v: Json, c: Codec)
    requires IsSubject(v)
    ensures CorrelationKey(v, c) == if IdentityOf(v, c).None? then None else Some(Rendered(IdentityOf(v, c).value))
  {
    KeyOfInnermost(v, c);
    InnermostKey(Innermost(v), c);
  }

  lemma InnermostKey(w: Json, c: Codec)
    requires IsSubject(w) && !HasUser(w)
    ensures CorrelationKey(w, c) == if IdentityOf(w, c).None? then None else Some(Rendered(IdentityOf(w, c).value))
  {
    assert Innermost(w) == w;
  }

  /** The key of the four identifier formats, member by member: a missing one is the empty text. */
  lemma KeyByFormat(v: Json, c: Codec)
    requires IsSubject(v)
    ensures var format, email := Get(v.members, "format"), Get(v.members, "email");
            && (format == Some(Str("email")) ==>
                  CorrelationKey(v, c) == match email
                                          case None => Some("email:" + c.lower(""))
                                          case Some(Str(text)) => Some("email:" + c.lower(text))
                                          case _ => None)
            && (format == Some(Str("phone_number")) ==>
                  CorrelationKey(v, c) == Some("phone:" + MemberText(v, "phone_number", c)))
            && (format == Some(Str("iss_sub")) ==>
                  CorrelationKey(v, c) ==
                  Some("iss_sub:" + MemberText(v, "iss", c) + "|" + MemberText(v, "sub", c)))
            && (format == Some(Str("opaque")) ==> CorrelationKey(v, c) == Some("opaque:" + MemberText(v, "id", c)))
  {
  }

  function MemberText(v: Json, name: string, c: Codec): string
    requires v.Object?
  {
    match Get(v.members, name)
    case None => ""
    case Some(Str(text)) => text
    case Some(other) => c.show(other)
  }

  // ----- Which subjects share a key -----

  /** `a` stands before a separator inside `b`. */
  predicate Begins(a: string, sep: char, b: string) {
    a + [sep] <= b
  }

  /** What stands in `b` after `a` and the separator. */
  function After(a: string, sep: char, b: string): string
    requires Begins(a, sep, b)
  {
    b[|a| + 1..]
  }

  lemma LongerSplit(a: string, x: string, b: string, y: string, sep: char)
    requires |a| < |b|
    ensures a + [sep] + x == b + [sep] + y <==> Begins(a, sep, b) && x == After(a, sep, b) + [sep] + y
  {
    var t, u := a + [sep] + x, b + [sep] + y;
    assert t[..|a| + 1] == a + [sep] && t[|a| + 1..] == x;
    assert u[..|a| + 1] == b[..|a| + 1] && u[|a| + 1..] == b[|a| + 1..] + [sep] + y;
    assert t == t[..|a| + 1] + t[|a| + 1..] && u == u[..|a| + 1] + u[|a| + 1..];
  }

  lemma EqualSplit(a: string, x: string, b: string, y: string, sep: char)
    requires |a| == |b|
    ensures a + [sep] + x == b + [sep] + y <==> a == b && x == y
  {
    var t, u := a + [sep] + x, b + [sep] + y;
    assert t[..|a|] == a && u[..|a|] == b && t[|a| + 1..] == x && u[|a| + 1..] == y;
  }

  /** Two texts with a separator in them are equal iff they split alike, or one of the heads goes on past it. */
  lemma SplitIff(a: string, x: string, b: string, y: string, sep: char)
    ensures a + [sep] + x == b + [sep] + y <==>
            || (a == b && x == y)
            || (Begins(a, sep, b) && x == After(a, sep, b) + [sep] + y)
            || (Begins(b, sep, a) && y == After(b, sep, a) + [sep] + x)
  {
    if |a| < |b| {
      LongerSplit(a, x, b, y, sep);
    } else if |b| < |a| {
      LongerSplit(b, y, a, x, sep);
    } else {
      EqualSplit(a, x, b, y, sep);
    }
  }

  /** The '|' has moved: the issuer `a` is `b` and the first part of the subject `y`. */
  predicate PipeMoved(a: string, x: string, b: string, y: string) {
    Begins(b, '|', a) && y == After(b, '|', a) + "|" + x
  }

  /** The fallback's format, up to its last ':', and its encoding read as an identifier of the format of `i`. */
  predicate ReadsAs(f: Identity, i: Identity)
    requires f.Fallback? && !i.Fallback?
  {
    || (f.format == Prefix(i) && f.encoding == Text(i))
    || (Begins(Prefix(i), ':', f.format) && Text(i) == After(Prefix(i), ':', f.format) + ":" + f.encoding)
  }

  predicate SameKey(i: Identity, j: Identity) {
    || i == j
    || (i.IssSub? && j.IssSub? && (PipeMoved(i.iss, i.sub, j.iss, j.sub) || PipeMoved(j.iss, j.sub, i.iss, i.sub)))
    || (i.Fallback? && !j.Fallback? && ReadsAs(i, j))
    || (j.Fallback? && !i.Fallback? && ReadsAs(j, i))
  }

  predicate ColonFree(i: Identity) {
    i.Fallback? ==> ':' !in i.encoding
  }

  lemma FallbackReads(f: Identity, i: Identity)
    requires f.Fallback? && !i.Fallback?
    ensures Rendered(f) == Rendered(i) <==> ReadsAs(f, i)
  {
    RenderedSplits(f);
    RenderedSplits(i);
    SplitIff(f.format, f.encoding, Prefix(i), Text(i), ':');
    SeparatorIn(f.format, ':', Prefix(i));
  }

  lemma SeparatorIn(a: string, sep: char, b: string)
    ensures Begins(a, sep, b) ==> sep in b
  {
    if Begins(a, sep, b) {
      assert b[|a|] == (a + [sep])[|a|];
    }
  }

  lemma FallbacksDiffer(f: Identity, g: Identity)
    requires f.Fallback? && g.Fallback? && ColonFree(f) && ColonFree(g)
    ensures Rendered(f) == Rendered(g) <==> f == g
  {
    SplitIff(f.format, f.encoding, g.format, g.encoding, ':');
  }

  lemma IssSubsShare(i: Identity, j: Identity)
    requires i.IssSub? && j.IssSub?
    ensures Rendered(i) == Rendered(j) <==>
            i == j || PipeMoved(i.iss, i.sub, j.iss, j.sub) || PipeMoved(j.iss, j.sub, i.iss, i.sub)
  {
    RenderedSplits(i);
    RenderedSplits(j);
    Tail(Prefix(i) + ":", Text(i), Text(j));
    SplitIff(i.iss, i.sub, j.iss, j.sub, '|');
  }

  lemma Tail(prefix: string, a: string, b: string)
    ensures prefix + a == prefix + b <==> a == b
  {
    assert (prefix + a)[|prefix|..] == a && (prefix + b)[|prefix|..] == b;
  }

  lemma FirstLetter(i: Identity)
    requires !i.Fallback?
    ensures Rendered(i)[0] ==
            if i.Email? then 'e' else if i.Phone? then 'p' else if i.IssSub? then 'i' else 'o'
  {
  }

  lemma IdentifiersShare(i: Identity, j: Identity)
    requires !i.Fallback? && !j.Fallback?
    ensures Rendered(i) == Rendered(j) <==> SameKey(i, j)
  {
    FirstLetter(i);
    FirstLetter(j);
    if i.IssSub? && j.IssSub? {
      IssSubsShare(i, j);
    } else if Prefix(i) == Prefix(j) {
      RenderedSplits(i);
      RenderedSplits(j);
      Tail(Prefix(i) + ":", Text(i), Text(j));
    }
  }

  lemma RenderedAlikeIff(i: Identity, j: Identity)
    requires ColonFree(i) && ColonFree(j)
    ensures Rendered(i) == Rendered(j) <==> SameKey(i, j)
  {
    if i.Fallback? && j.Fallback? {
      FallbacksDiffer(i, j);
    } else if i.Fallback? {
      FallbackReads(i, j);
    } else if j.Fallback? {
      FallbackReads(j, i);
    } else {
      IdentifiersShare(i, j);
    }
  }

  predicate IsHex(text: string) {
    forall ch :: ch in text ==> ch in "0123456789abcdef"
  }

  /** What `hexdigest()[:32]` returns, whatever it digests. */
  ghost predicate Hexadecimal(c: Codec) {
    forall x :: IsHex(c.digest(x))
  }

  lemma SomeCodecIsHexadecimal()
    ensures exists c :: Hexadecimal(c)
  {
    assert Hexadecimal(Codec(s => s, v => "", v => "0"));
  }

  /** So it has no ':', and is not the encoding of no members. */
  lemma HexText(text: string)
    requires IsHex(text)
    ensures ':' !in text && text != "empty"
  {
    assert "empty"[1] == 'm' && 'm' in "empty";
  }

  /** Any two subjects share a key iff their identities are equal, a '|' moved, or a fallback reads as an identifier. */
  lemma SharedKeyIff(v: Json, w: Json, c: Codec)
    requires IsSubject(v) && IsSubject(w) && IdentityOf(v, c).Some? && IdentityOf(w, c).Some?
    requires Hexadecimal(c)
    ensures CorrelationKey(v, c) == CorrelationKey(w, c) <==> SameKey(IdentityOf(v, c).value, IdentityOf(w, c).value)
  {
    KeyIsRendered(v, c);
    KeyIsRendered(w, c);
    IdentityColonFree(v, c);
    IdentityColonFree(w, c);
    RenderedAlikeIff(IdentityOf(v, c).value, IdentityOf(w, c).value);
  }

  lemma IdentityColonFree(v: Json, c: Codec)
    requires IsSubject(v) && Hexadecimal(c)
    ensures IdentityOf(v, c).Some? ==> ColonFree(IdentityOf(v, c).value)
  {
    var rest := Drop(Innermost(v).members, {"format"});
    HexText(c.digest(Canonical(Object(rest))));
  }

  /** Neither issuer is the other one followed by a '|'. */
  predicate Apart(a: string, b: string) {
    !Begins(a, '|', b) && !Begins(b, '|', a)
  }

  function IssSubSubject(iss: string, sub: string): (v: Json)
    ensures IsSubject(v) && Format(v) == "iss_sub"
    ensures GetOr(v.members, "iss") == Str(iss) && GetOr(v.members, "sub") == Str(sub)
  {
    var ms := [Member("format", Str("iss_sub")), Member("iss", Str(iss)), Member("sub", Str(sub))];
    assert ms[1..] == [Member("iss", Str(iss)), Member("sub", Str(sub))] && ms[1..][1..] == [Member("sub", Str(sub))];
    Object(ms)
  }

  lemma IssSubKey(iss: string, sub: string, c: Codec)
    ensures IdentityOf(IssSubSubject(iss, sub), c) == Some(IssSub(iss, sub))
    ensures CorrelationKey(IssSubSubject(iss, sub), c) == Some(Rendered(IssSub(iss, sub)))
  {
    KeyIsRendered(IssSubSubject(iss, sub), c);
  }

  predicate KeysMeet(a: string, x: string, b: string, y: string, c: Codec) {
    CorrelationKey(IssSubSubject(a, x), c) == CorrelationKey(IssSubSubject(b, y), c)
  }

  lemma KeysMeetIff(a: string, x: string, b: string, y: string, c: Codec)
    ensures KeysMeet(a, x, b, y, c) <==> (a == b && x == y) || PipeMoved(a, x, b, y) || PipeMoved(b, y, a, x)
  {
    IssSubKey(a, x, c);
    IssSubKey(b, y, c);
    IssSubsShare(IssSub(a, x), IssSub(b, y));
  }

  /** Keys tell the subjects of two issuers apart, all of them, iff neither issuer is the other followed by a '|'. */
  lemma SafeIssuersIff(a: string, b: string, c: Codec)
    ensures (forall x, y :: KeysMeet(a, x, b, y, c) ==> a == b && x == y) <==> Apart(a, b)
  {
    forall x, y
      ensures KeysMeet(a, x, b, y, c) <==> (a == b && x == y) || PipeMoved(a, x, b, y) || PipeMoved(b, y, a, x)
    {
      KeysMeetIff(a, x, b, y, c);
    }
    if Begins(a, '|', b) {
      assert PipeMoved(b, "", a, After(a, '|', b) + "|" + "") && a != b;
      assert KeysMeet(a, After(a, '|', b) + "|" + "", b, "", c);
    }
    if Begins(b, '|', a) {
      assert PipeMoved(a, "", b, After(b, '|', a) + "|" + "") && a != b;
      assert KeysMeet(a, "", b, After(b, '|', a) + "|" + "", c);
    }
  }

  /** In the four identifier formats, with issuers apart, the key tells every two identities apart. */
  lemma SameKeyIffSameIdentity(v: Json, w: Json, c: Codec)
    requires IsSubject(v) && IsSubject(w) && IdentityOf(v, c).Some? && IdentityOf(w, c).Some?
    requires !IdentityOf(v, c).value.Fallback? && !IdentityOf(w, c).value.Fallback?
    requires IdentityOf(v, c).value.IssSub? && IdentityOf(w, c).value.IssSub? ==>
             Apart(IdentityOf(v, c).value.iss, IdentityOf(w, c).value.iss)
    ensures CorrelationKey(v, c) == CorrelationKey(w, c) <==> IdentityOf(v, c) == IdentityOf(w, c)
  {
    KeyIsRendered(v, c);
    KeyIsRendered(w, c);
    IdentifiersShare(IdentityOf(v, c).value, IdentityOf(w, c).value);
  }

  // ----- Collisions -----

  /** A '|' in an issuer can move into the subject: two distinct subjects, one key. */
  lemma PipeCollides(iss: string, mid: string, sub: string, c: Codec)
    ensures var v, w := IssSubSubject(iss + "|" + mid, sub), IssSubSubject(iss, mid + "|" + sub);
            && IdentityOf(v, c) != IdentityOf(w, c)
            && CorrelationKey(v, c) == CorrelationKey(w, c)
  {
    IssSubKey(iss + "|" + mid, sub, c);
    IssSubKey(iss, mid + "|" + sub, c);
    PipeMoves(iss, mid, sub);
  }

  lemma PipeMoves(iss: string, mid: string, sub: string)
    ensures IssSub(iss + "|" + mid, sub) != IssSub(iss, mid + "|" + sub)
    ensures Rendered(IssSub(iss + "|" + mid, sub)) == Rendered(IssSub(iss, mid + "|" + sub))
  {
    assert iss + "|" + mid + "|" + sub == iss + "|" + (mid + "|" + sub);
  }

  function OneMember(format: string, name: string, value: Json): (v: Json)
    requires name != "format"
    ensures IsSubject(v) && Format(v) == format && Get(v.members, name) == Some(value)
    ensures forall other | other != name && other != "format" :: Get(v.members, other).None?
  {
    var ms := [Member("format", Str(format)), Member(name, value)];
    assert ms[1..] == [Member(name, value)];
    Object(ms)
  }

  /** A subject whose format is "phone" has the key of the phone number that its digest spells. */
  lemma FormatCollides(name: string, value: Json, c: Codec)
    requires name != "format"
    ensures var v := OneMember("phone", name, value);
            var w := OneMember("phone_number", "phone_number", Str(StableMemberEncoding(v.members, c)));
            IdentityOf(v, c) != IdentityOf(w, c) && CorrelationKey(v, c) == CorrelationKey(w, c)
  {
    var v := OneMember("phone", name, value);
    var text := StableMemberEncoding(v.members, c);
    var w := OneMember("phone_number", "phone_number", Str(text));
    KeyIsRendered(v, c);
    KeyIsRendered(w, c);
    assert IdentityOf(v, c) == Some(Fallback("phone", text)) && IdentityOf(w, c) == Some(Phone(text));
    RenderedSplits(Fallback("phone", text));
    RenderedSplits(Phone(text));
  }

  /** An identifier that is not a string is one with the string that `str()` makes of it. */
  lemma ShownCollides(id: Json, c: Codec)
    requires !id.Str?
    ensures var v, w := OneMember("opaque", "id", id), OneMember("opaque", "id", Str(c.show(id)));
            v != w && CorrelationKey(v, c) == CorrelationKey(w, c)
  {
    var v, w := OneMember("opaque", "id", id), OneMember("opaque", "id", Str(c.show(id)));
    assert Get(v.members, "id") != Get(w.members, "id");
  }

  // ----- The fallback encoding -----

  function Drop(ms: seq<Member>, names: set<string>): (rest: seq<Member>)
    ensures forall m :: m in rest <==> m in ms && m.name !in names
  {
    if ms == [] then []
    else
      assert forall m :: m in ms <==> m == ms[0] || m in ms[1..];
      (if ms[0].name in names then [] else [ms[0]]) + Drop(ms[1..], names)
  }

  function StableMemberEncoding(members: seq<Member>, c: Codec): string {
    var rest := Drop(members, {"format"});
    if rest == [] then "empty" else c.digest(Canonical(Object(rest)))
  }

  lemma {:induction false} DropDistinct(a: seq<Member>, names: set<string>)
    requires DistinctNames(a)
    ensures DistinctNames(Drop(a, names))
  {
    if a != [] {
      DropDistinct(a[1..], names);
    }
  }

  predicate Mirrored(m: Member, b: seq<Member>) {
    Get(b, m.name).Some? && SameDocument(m.value, Get(b, m.name).value)
  }

  predicate AllMirrored(a: seq<Member>, b: seq<Member>) {
    forall m :: m in a ==> Mirrored(m, b)
  }

  lemma SameObjects(a: seq<Member>, b: seq<Member>)
    ensures SameDocument(Object(a), Object(b)) <==> |a| == |b| && AllMirrored(a, b)
  {
  }

  lemma FormatMirrored(a: seq<Member>, b: seq<Member>, m: Member)
    requires DistinctNames(a) && m in a && m.name == "format"
    requires Get(a, "format") == Get(b, "format") && Get(a, "format").Some? && Get(a, "format").value.Str?
    ensures Mirrored(m, b)
  {
    GetIs(a, m);
  }

  lemma RestMirrored(a: seq<Member>, b: seq<Member>)
    requires DistinctNames(a)
    requires Get(a, "format") == Get(b, "format") && Get(a, "format").Some? && Get(a, "format").value.Str?
    ensures AllMirrored(Drop(a, {"format"}), Drop(b, {"format"})) ==> AllMirrored(a, b)
  {
    var ra, rb := Drop(a, {"format"}), Drop(b, {"format"});
    if AllMirrored(ra, rb) {
      forall m | m in a
        ensures Mirrored(m, b)
      {
        if m.name == "format" {
          FormatMirrored(a, b, m);
        } else {
          assert m in ra;
          GetDrop(b, {"format"}, m.name);
        }
      }
    }
  }

  lemma MirroredRest(a: seq<Member>, b: seq<Member>)
    ensures AllMirrored(a, b) ==> AllMirrored(Drop(a, {"format"}), Drop(b, {"format"}))
  {
    var ra, rb := Drop(a, {"format"}), Drop(b, {"format"});
    if AllMirrored(a, b) {
      forall m | m in ra
        ensures Mirrored(m, rb)
      {
        assert m in a && m.name != "format";
        GetDrop(b, {"format"}, m.name);
      }
    }
  }

  /** Two subjects of one format are the same document iff they are without their formats. */
  lemma SameRest(a: seq<Member>, b: seq<Member>)
    requires DistinctNames(a) && DistinctNames(b)
    requires Get(a, "format") == Get(b, "format") && Get(a, "format").Some? && Get(a, "format").value.Str?
    ensures SameDocument(Object(a), Object(b)) <==>
            SameDocument(Object(Drop(a, {"format"})), Object(Drop(b, {"format"})))
  {
    DropOne(a, "format");
    DropOne(b, "format");
    SameObjects(a, b);
    SameObjects(Drop(a, {"format"}), Drop(b, {"format"}));
    RestMirrored(a, b);
    MirroredRest(a, b);
  }

  lemma {:induction false} GetDrop(ms: seq<Member>, names: set<string>, name: string)
    requires name !in names
    ensures Get(Drop(ms, names), name) == Get(ms, name)
  {
    if ms != [] {
      GetDrop(ms[1..], names, name);
      var rest := Drop(ms[1..], names);
      if ms[0].name !in names {
        assert ([ms[0]] + rest)[1..] == rest;
      } else {
        assert [] + rest == rest;
      }
    }
  }

  lemma {:induction false} DropOne(ms: seq<Member>, name: string)
    requires DistinctNames(ms) && Get(ms, name).Some?
    ensures |Drop(ms, {name})| == |ms| - 1
  {
    if ms[0].name == name {
      assert forall m :: m in ms[1..] ==> m.name != name;
      DropNothing(ms[1..], {name});
    } else {
      DropOne(ms[1..], name);
    }
  }

  lemma {:induction false} DropNothing(ms: seq<Member>, names: set<string>)
    requires forall m :: m in ms ==> m.name !in names
    ensures Drop(ms, names) == ms
  {
    if ms != [] {
      DropNothing(ms[1..], names);
    }
  }

  /** The encoding does not depend on the order of members, at any depth. */
  lemma EncodingIgnoresOrder(a: seq<Member>, b: seq<Member>, c: Codec)
    requires WellFormed(Object(a)) && WellFormed(Object(b))
    requires SameDocument(Object(Drop(a, {"format"})), Object(Drop(b, {"format"})))
    ensures StableMemberEncoding(a, c) == StableMemberEncoding(b, c)
  {
    DropDistinct(a, {"format"});
    DropDistinct(b, {"format"});
    CanonicalIffSame(Object(Drop(a, {"format"})), Object(Drop(b, {"format"})));
  }

  /** Two different documents with one digest. */
  predicate Collide(x: Json, y: Json, c: Codec) {
    !SameDocument(x, y) && c.digest(Canonical(x)) == c.digest(Canonical(y))
  }

  /** What two subjects encode collides. */
  predicate EncodingsCollide(a: seq<Member>, b: seq<Member>, c: Codec) {
    var ra, rb := Drop(a, {"format"}), Drop(b, {"format"});
    ra != [] && rb != [] && Collide(Object(ra), Object(rb), c)
  }

  /** Two member lists share an encoding iff, without their formats, they are the same document or collide. */
  lemma EncodingIff(a: seq<Member>, b: seq<Member>, c: Codec)
    requires WellFormed(Object(a)) && WellFormed(Object(b)) && Hexadecimal(c)
    ensures StableMemberEncoding(a, c) == StableMemberEncoding(b, c) <==>
            SameDocument(Object(Drop(a, {"format"})), Object(Drop(b, {"format"}))) || EncodingsCollide(a, b, c)
  {
    var ra, rb := Drop(a, {"format"}), Drop(b, {"format"});
    DropDistinct(a, {"format"});
    DropDistinct(b, {"format"});
    CanonicalIffSame(Object(ra), Object(rb));
    HexText(c.digest(Canonical(Object(ra))));
    HexText(c.digest(Canonical(Object(rb))));
  }

  predicate IsFallback(v: Json, c: Codec)
    requires IsSubject(v)
  {
    IdentityOf(v, c).Some? && IdentityOf(v, c).value.Fallback?
  }

  lemma {:induction false} InnermostWellFormed(v: Json)
    requires IsSubject(v) && WellFormed(v)
    ensures WellFormed(Innermost(v))
    decreases v
  {
    if HasUser(v) {
      var user := Get(v.members, "user").value;
      assert Member("user", user) in v.members;
      InnermostWellFormed(user);
    }
  }

  lemma FallbackIdentity(v: Json, c: Codec)
    requires IsSubject(v) && IsFallback(v, c)
    ensures IdentityOf(v, c).value == Fallback(Format(Innermost(v)), StableMemberEncoding(Innermost(v).members, c))
  {
    OwnFallback(Innermost(v), c);
  }

  lemma OwnFallback(w: Json, c: Codec)
    requires IsSubject(w) && OwnIdentity(w, c).Some? && OwnIdentity(w, c).value.Fallback?
    ensures OwnIdentity(w, c) == Some(Fallback(Format(w), StableMemberEncoding(w.members, c)))
  {
  }

  lemma FallbacksShare(v: Json, w: Json, c: Codec)
    requires IsSubject(v) && IsSubject(w) && IsFallback(v, c) && IsFallback(w, c) && Hexadecimal(c)
    ensures CorrelationKey(v, c) == CorrelationKey(w, c) <==> IdentityOf(v, c).value == IdentityOf(w, c).value
  {
    SharedKeyIff(v, w, c);
  }

  /**
    Two fallback subjects share a key iff they are the same document up to member
    order at every depth, or have one format and colliding digests.
   */
  lemma FallbackKeysIff(v: Json, w: Json, c: Codec)
    requires IsSubject(v) && IsSubject(w) && IsFallback(v, c) && IsFallback(w, c)
    requires WellFormed(v) && WellFormed(w) && Hexadecimal(c)
    ensures var a, b := Innermost(v), Innermost(w);
            CorrelationKey(v, c) == CorrelationKey(w, c) <==>
            SameDocument(a, b) || (Format(a) == Format(b) && EncodingsCollide(a.members, b.members, c))
  {
    InnermostWellFormed(v);
    InnermostWellFormed(w);
    FallbacksShare(v, w, c);
    FallbackIdentity(v, c);
    FallbackIdentity(w, c);
    SameSubjectIff(Innermost(v), Innermost(w), c);
  }

  lemma SameSubjectIff(a: Json, b: Json, c: Codec)
    requires IsSubject(a) && IsSubject(b) && WellFormed(a) && WellFormed(b) && Hexadecimal(c)
    ensures Format(a) == Format(b) && StableMemberEncoding(a.members, c) == StableMemberEncoding(b.members, c) <==>
            SameDocument(a, b) || (Format(a) == Format(b) && EncodingsCollide(a.members, b.members, c))
  {
    EncodingIff(a.members, b.members, c);
    if Format(a) == Format(b) {
      SameRest(a.members, b.members);
    } else {
      DifferentFormats(a, b);
    }
  }

  /** With any digest at all, the key of a fallback subject does not depend on the order of members at any depth. */
  lemma FallbackKeyIgnoresOrder(v: Json, w: Json, c: Codec)
    requires IsSubject(v) && IsSubject(w) && IsFallback(v, c) && IsFallback(w, c)
    requires WellFormed(v) && WellFormed(w) && SameDocument(Innermost(v), Innermost(w))
    ensures CorrelationKey(v, c) == CorrelationKey(w, c)
  {
    InnermostWellFormed(v);
    InnermostWellFormed(w);
    FallbackIdentity(v, c);
    FallbackIdentity(w, c);
    KeyIsRendered(v, c);
    KeyIsRendered(w, c);
    SameSubjectEncodes(Innermost(v), Innermost(w), c);
  }

  lemma SameSubjectEncodes(a: Json, b: Json, c: Codec)
    requires IsSubject(a) && IsSubject(b) && WellFormed(a) && WellFormed(b) && SameDocument(a, b)
    ensures Format(a) == Format(b) && StableMemberEncoding(a.members, c) == StableMemberEncoding(b.members, c)
  {
    if Format(a) != Format(b) {
      DifferentFormats(a, b);
    }
    SameRest(a.members, b.members);
    EncodingIgnoresOrder(a.members, b.members, c);
  }

  lemma DifferentFormats(a: Json, b: Json)
    requires IsSubject(a) && IsSubject(b) && Format(a) != Format(b)
    ensures !SameDocument(a, b)
  {
    assert Member("format", Get(a.members, "format").value) in a.members;
  }

  // ----- Registration -----

  const SESSION_FIELDS := {"apm_session_id", "bigip_device", "apm_username"}

  /** The subject that `POST /correlation/sessions` derives its key from. */
  function RegisteredSubject(body: seq<Member>): Json {
    Object(Drop(body, SESSION_FIELDS))
  }

  lemma {:induction false} DropAll(ms: seq<Member>, names: set<string>)
    requires forall m :: m in ms ==> m.name in names
    ensures Drop(ms, names) == []
  {
    if ms != [] {
      DropAll(ms[1..], names);
    }
  }

  lemma {:induction false} DropAppended(ms: seq<Member>, more: seq<Member>, names: set<string>)
    requires forall m :: m in ms ==> m.name !in names
    requires forall m :: m in more ==> m.name in names
    ensures Drop(ms + more, names) == ms
  {
    if ms == [] {
      assert ms + more == more;
      DropAll(more, names);
    } else {
      assert (ms + more)[1..] == ms[1..] + more;
      DropAppended(ms[1..], more, names);
    }
  }

  /** Registering a session under a subject gives the key that a SET about the subject has. */
  lemma RegistrationKeyAgrees(ms: seq<Member>, session: seq<Member>, c: Codec)
    requires IsSubject(Object(ms))
    requires forall m :: m in ms ==> m.name !in {"apm_session_id", "bigip_device", "apm_username"}
    requires forall m :: m in session ==> m.name in {"apm_session_id", "bigip_device", "apm_username"}
    ensures IsSubject(RegisteredSubject(ms + session))
    ensures CorrelationKey(RegisteredSubject(ms + session), c) == CorrelationKey(Object(ms), c)
  {
    DropAppended(ms, session, SESSION_FIELDS);
  }
}
