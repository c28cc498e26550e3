/** The user records of server/controllers/userController.js: signup's
    validation and insert, updateProfile's partial update, and the
    supported-languages endpoint. The `User` collection is a sequence in
    insertion order; bcrypt, Cloudinary and the id generator are
    parameters. */
module Users {
  import opened Records
  import Translator

  const MissingDetails: string := "Missing Details"
  const AccountExists: string := "Account already exists"

  /** `User.findById(id)`: the first user with that id, or `null`. */
  function FindById(users: seq<User>, id: UserId): (found: Option<User>)
    ensures found.Some? ==> found.value in users && found.value.id == id
    ensures found.None? <==> forall i :: 0 <= i < |users| ==> users[i].id != id
  {
    if users == [] then None
    else if users[0].id == id then Some(users[0])
    else
      var rest := FindById(users[1..], id);
      assert forall i :: 1 <= i < |users| ==> users[i] == users[1..][i - 1];
      rest
  }

  /** Some stored user has this email (`User.findOne({email})` is not null). */
  predicate EmailTaken(users: seq<User>, email: string)
  {
    exists i :: 0 <= i < |users| && users[i].email == email
  }

  /** `User.findOne({email})` finds somebody. */
  function FindsByEmail(users: seq<User>, email: string): (found: bool)
    ensures found <==> EmailTaken(users, email)
  {
    if users == [] then false
    else if users[0].email == email then true
    else
      var rest := FindsByEmail(users[1..], email);
      assert forall i :: 1 <= i < |users| ==> users[i] == users[1..][i - 1];
      rest
  }

  /** One of the four required signup fields is missing or empty. */
  predicate MissingField(fullName: string, email: string, password: string, bio: string)
  {
    fullName == "" || email == "" || password == "" || bio == ""
  }

  /** The checks signup makes before creating anything: the error it
      reports, or `None` when the account may be created. */
  function SignupError(users: seq<User>, fullName: string, email: string, password: string, bio: string)
    : (err: Option<string>)
    ensures err == Some(MissingDetails) <==> MissingField(fullName, email, password, bio)
    ensures err == Some(AccountExists) <==> !MissingField(fullName, email, password, bio) && EmailTaken(users, email)
    ensures err.None? <==> !MissingField(fullName, email, password, bio) && !EmailTaken(users, email)
  {
    if fullName == "" || email == "" || password == "" || bio == "" then Some(MissingDetails)
    else if FindsByEmail(users, email) then Some(AccountExists)
    else None
  }

  /** The fields an `updateProfile` request supplies (`updateFields`). */
  datatype Patch = Patch(
    bio: Option<string>,
    fullName: Option<string>,
    preferredLanguage: Option<string>,
    profilePic: Option<string>)

  /** `u` with the supplied fields of `p` set (MongoDB's `$set`). */
  function Patched(u: User, p: Patch): (r: User)
    ensures r.id == u.id && r.email == u.email && r.password == u.password
    ensures r.bio == if p.bio.Some? then p.bio.value else u.bio
    ensures r.fullName == if p.fullName.Some? then p.fullName.value else u.fullName
    ensures r.preferredLanguage == if p.preferredLanguage.Some? then p.preferredLanguage.value else u.preferredLanguage
    ensures r.profilePic == if p.profilePic.Some? then p.profilePic.value else u.profilePic
  {
    u.(bio := if p.bio.Some? then p.bio.value else u.bio,
       fullName := if p.fullName.Some? then p.fullName.value else u.fullName,
       preferredLanguage := if p.preferredLanguage.Some? then p.preferredLanguage.value else u.preferredLanguage,
       profilePic := if p.profilePic.Some? then p.profilePic.value else u.profilePic)
  }

  /** The store after `User.findByIdAndUpdate(id, p)`. */
  function UpdatedById(users: seq<User>, id: UserId, p: Patch): (r: seq<User>)
    ensures |r| == |users|
    ensures forall i :: 0 <= i < |users| ==> r[i] == if users[i].id == id then Patched(users[i], p) else users[i]
  {
    if users == [] then []
    else [if users[0].id == id then Patched(users[0], p) else users[0]] + UpdatedById(users[1..], id, p)
  }

  /** The user collection. */
  class UserStore {
    var users: seq<User>

    /** Ids are unique (MongoDB's `_id`) and so are emails (signup refuses
        an email already taken, and nothing else changes an email). */
    ghost predicate Valid()
      reads this
    {
      forall i, j :: 0 <= i < j < |users| ==> users[i].id != users[j].id && users[i].email != users[j].email
    }

    constructor ()
      ensures Valid() && users == []
    {
      users := [];
    }

    /** `signup`: refuses missing fields and taken emails without creating
        anything; otherwise appends exactly one user whose password is the
        bcrypt hash of the given one under `salt`. `newId` is the fresh
        ObjectId the database assigns; preferred language and picture take
        the schema defaults. */
    method Signup(fullName: string, email: string, password: string, bio: string,
                  hash: (string, string) -> string, salt: string, newId: UserId)
      returns (r: Result<User>)
      requires Valid()
      requires FindById(users, newId).None?
      modifies this
      ensures Valid()
      ensures r.Failure? ==> users == old(users)
      ensures r.Failure? <==> SignupError(old(users), fullName, email, password, bio).Some?
      ensures r.Failure? ==> Some(r.message) == SignupError(old(users), fullName, email, password, bio)
      ensures r.Success? ==> users == old(users) + [r.value]
      ensures r.Success? ==> r.value == User(newId, fullName, email, hash(password, salt), bio, "", Translator.NoTranslation)
    {
      var err := SignupError(users, fullName, email, password, bio);
      if err.Some? {
        return Failure(err.value);
      }
      var created := User(newId, fullName, email, hash(password, salt), bio, "", Translator.NoTranslation);
      users := users + [created];
      r := Success(created);
    }

    /** `updateProfile`: sets exactly the supplied fields among bio, full
        name and preferred language, and the picture to the upload's URL
        when one is given; everything else keeps its value. A failed upload
        changes nothing. An unknown id changes nothing and answers `null`. */
    method UpdateProfile(userId: UserId, profilePic: string, bio: Option<string>, fullName: Option<string>,
                         preferredLanguage: Option<string>, upload: string -> Outcome<string>)
      returns (r: Result<Option<User>>)
      requires Valid()
      modifies this
      ensures Valid()
      ensures profilePic != "" && upload(profilePic).Fail? ==> r == Failure(upload(profilePic).error) && users == old(users)
      ensures !(profilePic != "" && upload(profilePic).Fail?) ==>
        var p := Patch(bio, fullName, preferredLanguage,
                       if profilePic != "" then Some(upload(profilePic).value) else None);
        && users == UpdatedById(old(users), userId, p)
        && r.Success?
        && (r.value.None? <==> FindById(old(users), userId).None?)
        && (r.value.Some? ==> r.value.value == Patched(FindById(old(users), userId).value, p))
    {
      var updateFields := Patch(None, None, None, None);
      if bio.Some? { updateFields := updateFields.(bio := bio); }
      if fullName.Some? { updateFields := updateFields.(fullName := fullName); }
      if preferredLanguage.Some? { updateFields := updateFields.(preferredLanguage := preferredLanguage); }
      if profilePic != "" {
        match upload(profilePic)
        case Fail(e) =>
          return Failure(e);
        case Ok(url) =>
          updateFields := updateFields.(profilePic := Some(url));
      }
      var before := users;
      users := UpdatedById(users, userId, updateFields);
      forall i, j | 0 <= i < j < |users| ensures users[i].id != users[j].id && users[i].email != users[j].email {
        assert users[i].id == before[i].id && users[i].email == before[i].email;
        assert users[j].id == before[j].id && users[j].email == before[j].email;
      }
      var found := FindById(before, userId);
      if found.None? {
        r := Success(None);
      } else {
        r := Success(Some(Patched(found.value, updateFields)));
      }
    }
  }

  /** `getSupportedLanguagesController`: always succeeds, with the
      translator's list (the fallback catalogue when the service fails). */
  function GetSupportedLanguagesController(svc: Translator.Service): (r: Result<seq<Language>>)
    ensures r.Success?
    ensures svc.languages.Ok? ==> r.value == svc.languages.value
    ensures svc.languages.Fail? ==> r.value == Translator.FallbackLanguages()
  {
    Success(Translator.SupportedLanguages(svc))
  }
}
