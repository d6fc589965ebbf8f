/**
 * The user checks of `userService.js`: the validation of the entry form, and the rule that a user
 * is looked up by mobile number before a new record is created. The backend's user table is the
 * `users` field of a directory object; whether its lookup and insert calls succeed is a parameter.
 */
module UserService {
  import opened Wrappers
  import opened Text

  /** The form fields, under either spelling; "" stands for a missing field. */
  datatype UserInput = UserInput(name: string, nameC: string, mobile: string, mobileC: string)

  /** A stored user record (`Id`, `Name`, `name_c`, `mobile_c`, `created_at_c`). */
  datatype User = User(id: int, name: string, nameC: string, mobile: string, createdAt: int)

  /** `primary || fallback` on strings: the first unless it is empty. */
  function Pick(primary: string, fallback: string): (r: string)
    ensures primary != "" ==> r == primary
    ensures primary == "" ==> r == fallback
  {
    if primary != "" then primary else fallback
  }

  const NameError := "Name must be at least 2 characters long"
  const MobileError := "Please enter a valid 10-digit mobile number"

  /** `/^[6-9]\d{9}$/`: ten ASCII digits, the first of them 6 to 9. */
  predicate IsMobileNumber(s: string) {
    |s| == 10 && '6' <= s[0] <= '9' && forall i :: 1 <= i < 10 ==> IsDigit(s[i])
  }

  datatype Validation = Validation(isValid: bool, errors: seq<string>)

  /**
   * `validateUserData`: a name of at least two UTF-16 code units after trimming, and a mobile number
   * as above.
   */
  function ValidateUserData(input: UserInput): (r: Validation)
    ensures r.isValid <==> r.errors == []
    ensures NameError in r.errors <==> Utf16Length(Trim(Pick(input.nameC, input.name))) < 2
    ensures MobileError in r.errors <==> !IsMobileNumber(Pick(input.mobileC, input.mobile))
    ensures r.errors in {[], [NameError], [MobileError], [NameError, MobileError]}
  {
    var name := Pick(input.nameC, input.name);
    var mobile := Pick(input.mobileC, input.mobile);
    var nameBad, mobileBad := name == "" || Utf16Length(Trim(name)) < 2, mobile == "" || !IsMobileNumber(mobile);
    var errors := (if nameBad then [NameError] else []) + (if mobileBad then [MobileError] else []);
    assert errors == if nameBad && mobileBad then [NameError, MobileError]
      else if nameBad then [NameError] else if mobileBad then [MobileError] else [];
    Validation(|errors| == 0, errors)
  }

  /** A name of one astral character, such as an emoji, is two code units long and passes. */
  lemma AstralNameAccepted(input: UserInput)
    requires input.nameC == "\U{1F64F}"
    ensures NameError !in ValidateUserData(input).errors
  {
    TrimStartOfNonBlank(input.nameC);
    assert TrimEnd(input.nameC) == input.nameC;
  }

  /** The mobile number is checked as typed: surrounding blanks make it invalid, unlike the name. */
  lemma MobileIsNotTrimmed(input: UserInput)
    requires Pick(input.mobileC, input.mobile) == " 9876543210"
    ensures MobileError in ValidateUserData(input).errors
  {
  }

  /** The user table, grown by `createUser`. */
  class UserDirectory {
    var users: seq<User>

    constructor (seed: seq<User>)
      ensures users == seed
    {
      users := seed;
    }

    /**
     * `findUserByMobile`: the first record with that mobile number (the query's page holds one).
     * A failed request (`lookupFails`) is reported as no user, not as an error.
     */
    function FindUserByMobile(mobile: string, lookupFails: bool): (r: Option<User>)
      reads this
      ensures lookupFails ==> r == None
      ensures !lookupFails && r.None? ==> forall i :: 0 <= i < |users| ==> users[i].mobile != mobile
      ensures r.Some? ==> exists i :: 0 <= i < |users| && users[i] == r.value && r.value.mobile == mobile
                                      && forall j :: 0 <= j < i ==> users[j].mobile != mobile
    {
      if lookupFails then None else FirstWithMobile(users, mobile)
    }

    /** No two stored users share a mobile number. */
    ghost predicate UniqueMobiles()
      reads this
    {
      forall i, j :: 0 <= i < j < |users| ==> users[i].mobile != users[j].mobile
    }

    /**
     * `createUser`: returns the user already registered under the mobile number, if the lookup finds
     * one, and creates nothing; otherwise inserts a record carrying the chosen name under both
     * `Name` and `name_c`. `insertFailure` is the insert's error message when the backend refuses it.
     */
    method CreateUser(input: UserInput, now: int, lookupFails: bool, insertFailure: Option<string>) returns (r: Result<User>)
      modifies this
      ensures var mobile := Pick(input.mobileC, input.mobile);
              var found := old(FindUserByMobile(mobile, lookupFails));
              (found.Some? ==> r == Ok(found.value) && users == old(users))
              && (found.None? && insertFailure.Some? ==> r == Err(insertFailure.value) && users == old(users))
              && (found.None? && insertFailure.None? ==>
                    r.Ok? && users == old(users) + [r.value]
                    && r.value.name == Pick(input.nameC, input.name) && r.value.nameC == r.value.name
                    && r.value.mobile == mobile && r.value.createdAt == now
                    && forall i :: 0 <= i < |old(users)| ==> old(users)[i].id < r.value.id)
      ensures !lookupFails && old(UniqueMobiles()) ==> UniqueMobiles()
    {
      var mobile := Pick(input.mobileC, input.mobile);
      var found := FindUserByMobile(mobile, lookupFails);
      if found.Some? {
        return Ok(found.value);
      }
      if insertFailure.Some? {
        return Err(insertFailure.value);
      }
      var name := Pick(input.nameC, input.name);
      var user := User(MaxUserId(users) + 1, name, name, mobile, now);
      users := users + [user];
      r := Ok(user);
    }
  }

  function FirstWithMobile(users: seq<User>, mobile: string): (r: Option<User>)
    ensures r.None? ==> forall i :: 0 <= i < |users| ==> users[i].mobile != mobile
    ensures r.Some? ==> exists i :: 0 <= i < |users| && users[i] == r.value && r.value.mobile == mobile
                                    && forall j :: 0 <= j < i ==> users[j].mobile != mobile
  {
    if users == [] then None
    else if users[0].mobile == mobile then Some(users[0])
    else
      var r := FirstWithMobile(users[1..], mobile);
      assert r.Some? ==> exists i :: 1 <= i < |users| && users[i] == r.value
                                     && forall j :: 1 <= j < i ==> users[j].mobile != mobile by {
        if r.Some? {
          var k :| 0 <= k < |users[1..]| && users[1..][k] == r.value
                   && forall j :: 0 <= j < k ==> users[1..][j].mobile != mobile;
          assert users[k + 1] == r.value;
          assert forall j :: 1 <= j < k + 1 ==> users[j] == users[1..][j - 1];
        }
      }
      r
  }

  /** The Id the backend gives a new record, modelled as one more than the largest so far. */
  function MaxUserId(users: seq<User>): (m: int)
    ensures m >= 0 && forall i :: 0 <= i < |users| ==> users[i].id <= m
  {
    if users == [] then 0
    else
      var rest := MaxUserId(users[1..]);
      if users[0].id > rest then users[0].id else rest
  }

  /**
   * When the lookup request fails, `createUser` cannot see the existing record and registers the same
   * mobile number a second time.
   */
  method DuplicateAfterFailedLookup(input: UserInput, now: int) returns (dir: UserDirectory)
    ensures |dir.users| == 2 && dir.users[0].mobile == dir.users[1].mobile && !dir.UniqueMobiles()
  {
    dir := new UserDirectory([]);
    var first := dir.CreateUser(input, now, false, None);
    var second := dir.CreateUser(input, now, true, None);
  }
}
