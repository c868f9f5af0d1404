/** The user schema: the shape of a stored user, what its setters do to a
    value before it is stored (trim, lowercase), what its validators demand
    of it (required, the email pattern) and the unique index on `email`. */
module UserModel {
  import opened Strings

  datatype Option<T> = None | Some(value: T)

  /** The opaque document identifier the store assigns. */
  type Id = string

  /** `geo` inside the address sub-schema: coordinates kept as text. */
  datatype Geo = Geo(lat: Option<string>, lng: Option<string>)

  /** The embedded address sub-schema; every part of it is optional. */
  datatype Address = Address(
    street: Option<string>,
    city: Option<string>,
    zipcode: Option<string>,
    geo: Option<Geo>)

  /** A user document without its id; `company` and `address` are optional. */
  datatype User = User(
    name: string,
    email: string,
    phone: string,
    company: Option<string>,
    address: Option<Address>)

  // ---------------------------------------------------------------------
  // Setters: what the schema does to every value assigned to a path

  function TrimOpt(o: Option<string>): Option<string> {
    match o
    case None => None
    case Some(s) => Some(Trim(s))
  }

  function NormalizeGeo(g: Geo): Geo {
    Geo(TrimOpt(g.lat), TrimOpt(g.lng))
  }

  function NormalizeAddress(a: Address): Address {
    Address(TrimOpt(a.street), TrimOpt(a.city), TrimOpt(a.zipcode),
            match a.geo case None => None case Some(g) => Some(NormalizeGeo(g)))
  }

  function NormalizeAddressOpt(o: Option<Address>): Option<Address> {
    match o
    case None => None
    case Some(a) => Some(NormalizeAddress(a))
  }

  /** The email path's `trim` and `lowercase` setters: the stored email is
      the lower-cased infix of `s` that `trim` keeps. */
  function NormalizeEmail(s: string): (r: string)
    ensures Trimmed(r) && LowerCased(r) && LowerInfixAt(s, LeadingSpace(s), r)
  {
    LowerOfInfix(s, Trim(s), LeadingSpace(s));
    Lower(Trim(s))
  }

  /** Lower-casing the infix of `s` at `n` keeps its place and its padding. */
  lemma LowerOfInfix(s: string, t: string, n: nat)
    requires InfixAt(s, n, t)
    ensures LowerInfixAt(s, n, Lower(t))
  {
  }

  /** `t` is the lower-cased form of the infix of `s` at position `i`, and
      that infix has only white space around it. */
  predicate LowerInfixAt(s: string, i: nat, t: string) {
    Padded(s, i, |t|) && t == Lower(s[i..i + |t|])
  }

  /** White space around an email does not change what is stored. */
  lemma NormalizeEmailIgnoresPadding(p: string, s: string, q: string)
    requires AllSpace(p) && AllSpace(q)
    ensures NormalizeEmail(p + s + q) == NormalizeEmail(s)
  {
    TrimIgnoresPadding(p, s, q);
  }

  /** Two emails that differ only in the case of their letters are stored
      as the same string. */
  lemma NormalizeEmailIgnoresCase(s: string, t: string)
    requires SameUpToCase(s, t)
    ensures NormalizeEmail(s) == NormalizeEmail(t)
  {
    TrimLowerCommute(s);
    TrimLowerCommute(t);
    LowerIgnoresCase(s, t);
  }

  /** Every path of the document passed through its setters. */
  function Normalize(u: User): User {
    User(Trim(u.name), NormalizeEmail(u.email), Trim(u.phone),
         TrimOpt(u.company), NormalizeAddressOpt(u.address))
  }

  // ---------------------------------------------------------------------
  // What a value looks like once it has been through the setters

  predicate OptTrimmed(o: Option<string>) {
    o.Some? ==> Trimmed(o.value)
  }

  predicate GeoNormalized(g: Geo) {
    OptTrimmed(g.lat) && OptTrimmed(g.lng)
  }

  predicate AddressNormalized(a: Address) {
    && OptTrimmed(a.street) && OptTrimmed(a.city) && OptTrimmed(a.zipcode)
    && (a.geo.Some? ==> GeoNormalized(a.geo.value))
  }

  /** Every string of the document is trimmed and the email is lower-case. */
  predicate Normalized(u: User) {
    && Trimmed(u.name) && Trimmed(u.email) && LowerCased(u.email) && Trimmed(u.phone)
    && OptTrimmed(u.company)
    && (u.address.Some? ==> AddressNormalized(u.address.value))
  }

  lemma TrimOptFixed(o: Option<string>)
    requires OptTrimmed(o)
    ensures TrimOpt(o) == o
  {
    if o.Some? {
      TrimmedIsFixed(o.value);
    }
  }

  lemma AddressFixed(a: Address)
    requires AddressNormalized(a)
    ensures NormalizeAddress(a) == a
  {
    TrimOptFixed(a.street);
    TrimOptFixed(a.city);
    TrimOptFixed(a.zipcode);
    if a.geo.Some? {
      TrimOptFixed(a.geo.value.lat);
      TrimOptFixed(a.geo.value.lng);
    }
  }

  lemma NormalizeAddressIsNormalized(a: Address)
    ensures AddressNormalized(NormalizeAddress(a))
  {
    var n := NormalizeAddress(a);
    assert OptTrimmed(n.street) && OptTrimmed(n.city) && OptTrimmed(n.zipcode);
    if a.geo.Some? {
      assert GeoNormalized(NormalizeGeo(a.geo.value));
    }
  }

  /** The setters leave every path normalised, whatever the input. */
  lemma NormalizeIsNormalized(u: User)
    ensures Normalized(Normalize(u))
  {
    var n := Normalize(u);
    assert Trimmed(n.name) && Trimmed(n.phone) && OptTrimmed(n.company);
    if u.address.Some? {
      NormalizeAddressIsNormalized(u.address.value);
    }
  }

  /** A normalised document passes through the setters unchanged. */
  lemma NormalizedIsFixed(u: User)
    requires Normalized(u)
    ensures Normalize(u) == u
  {
    TrimmedIsFixed(u.name);
    TrimmedIsFixed(u.email);
    LowerCasedIsFixed(u.email);
    TrimmedIsFixed(u.phone);
    TrimOptFixed(u.company);
    if u.address.Some? {
      AddressFixed(u.address.value);
    }
  }

  /** Normalisation is idempotent. */
  lemma NormalizeIdempotent(u: User)
    ensures Normalize(Normalize(u)) == Normalize(u)
  {
    NormalizeIsNormalized(u);
    NormalizedIsFixed(Normalize(u));
  }

  // ---------------------------------------------------------------------
  // Validators

  /** The email pattern `^\S+@\S+\.\S+$` in terms of positions: no white
      space anywhere, and an `@` with a character before it followed, at
      least two places later, by a `.` with a character after it. */
  predicate ValidEmail(s: string) {
    && (forall k | 0 <= k < |s| :: !IsSpace(s[k]))
    && exists i, j | 1 <= i && i + 2 <= j && j + 2 <= |s| :: s[i] == '@' && s[j] == '.'
  }

  /** A non-empty run of non-white-space characters: `\S+`. */
  ghost predicate NonSpaceRun(t: string) {
    |t| > 0 && forall k | 0 <= k < |t| :: !IsSpace(t[k])
  }

  /** The same pattern read off the regular expression: the anchored string
      is `\S+`, `@`, `\S+`, `.`, `\S+` in a row. */
  ghost predicate EmailPattern(s: string) {
    exists a, b, c | NonSpaceRun(a) && NonSpaceRun(b) && NonSpaceRun(c) :: s == a + "@" + b + "." + c
  }

  /** The position test accepts exactly the strings the regular expression
      matches. */
  lemma ValidEmailIffPattern(s: string)
    ensures ValidEmail(s) <==> EmailPattern(s)
  {
    if ValidEmail(s) {
      var i, j :| 1 <= i && i + 2 <= j && j + 2 <= |s| && s[i] == '@' && s[j] == '.';
      var a, b, c := s[..i], s[i + 1..j], s[j + 1..];
      assert NonSpaceRun(a) && NonSpaceRun(b) && NonSpaceRun(c);
      assert s == a + "@" + b + "." + c;
    }
    if EmailPattern(s) {
      var a, b, c :| NonSpaceRun(a) && NonSpaceRun(b) && NonSpaceRun(c) && s == a + "@" + b + "." + c;
      var i, j := |a|, |a| + 1 + |b|;
      assert s[i] == '@' && s[j] == '.';
      forall k | 0 <= k < |s| ensures !IsSpace(s[k]) {
        if k < i {
          assert s[k] == a[k];
        } else if i < k < j {
          assert s[k] == b[k - i - 1];
        } else if j < k {
          assert s[k] == c[k - j - 1];
        }
      }
    }
  }

  /** The schema's validators on a document whose values have been through
      the setters: `name`, `email` and `phone` are required (a required
      string rejects the empty string) and `email` must match the pattern. */
  predicate Valid(u: User) {
    u.name != "" && u.email != "" && u.phone != "" && ValidEmail(u.email)
  }

  /** A required field that is empty once trimmed fails validation, so a
      value of white space alone does not satisfy `required`. */
  lemma RequiredAfterTrim(u: User)
    ensures Trim(u.name) == "" || Trim(u.email) == "" || Trim(u.phone) == "" ==> !Valid(Normalize(u))
  {
  }

  /** Lower-casing neither creates nor removes an `@`, a `.` or white space,
      so whether an email matches the pattern does not depend on its case. */
  lemma ValidEmailIgnoresCase(s: string)
    ensures ValidEmail(Lower(s)) == ValidEmail(s)
  {
    var l := Lower(s);
    if ValidEmail(s) {
      var i, j :| 1 <= i && i + 2 <= j && j + 2 <= |s| && s[i] == '@' && s[j] == '.';
      assert l[i] == '@' && l[j] == '.';
    }
    if ValidEmail(l) {
      var i, j :| 1 <= i && i + 2 <= j && j + 2 <= |l| && l[i] == '@' && l[j] == '.';
      assert s[i] == '@' && s[j] == '.';
    }
  }

  // ---------------------------------------------------------------------
  // The unique index on `email`

  /** No two documents of the collection share an email. */
  ghost predicate UniqueEmails(t: map<Id, User>) {
    forall x, y | x in t && y in t && x != y :: t[x].email != t[y].email
  }

  /** Some document of the collection has email `e`. */
  predicate EmailTaken(t: map<Id, User>, e: string) {
    exists id | id in t :: t[id].email == e
  }

  /** Some document other than `self` has email `e`. */
  predicate EmailTakenByOther(t: map<Id, User>, e: string, self: Id) {
    exists id | id in t && id != self :: t[id].email == e
  }

  /** Inserting a document under a fresh id with an untaken email, or
      replacing one with an email no other document has, keeps the index
      unique. */
  lemma StoreKeepsUnique(t: map<Id, User>, id: Id, u: User)
    requires UniqueEmails(t) && !EmailTakenByOther(t, u.email, id)
    ensures UniqueEmails(t[id := u])
  {
  }
}
