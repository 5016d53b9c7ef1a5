/** Rendering of chat user ids: a live mention, or a display name looked up
    in the chat platform's profile directory. An absent or empty id becomes
    the "Not assigned" sentinel. */
module Slack {
  import opened Types

  const NotAssigned: string := "Not assigned"

  /** A mention token: `<@` + a non-empty id + `>`. */
  predicate IsMention(s: string) {
    |s| >= 4 && s[..2] == "<@" && s[|s| - 1] == '>'
  }

  /** The id inside a mention token. */
  function MentionedId(s: string): string
    requires IsMention(s)
  {
    s[2..|s| - 1]
  }

  /** getusername: the mention for a truthy id, the sentinel otherwise. */
  function GetUsername(userId: Option<string>): (r: string)
    ensures r == NotAssigned <==> !Truthy(userId)
    ensures Truthy(userId) ==> IsMention(r) && MentionedId(r) == userId.value
  {
    if Truthy(userId) then
      var mention := "<@" + userId.value + ">";
      assert mention[0] != NotAssigned[0];
      mention
    else NotAssigned
  }

  /** The part of a profile lookup's answer the code reads:
      `response.profile?.real_name`. */
  datatype Profile = Profile(realName: Option<string>)
  datatype ProfileResponse = ProfileResponse(profile: Option<Profile>)

  /** The awaited profile call rejected (network or API error). */
  datatype LookupError = LookupError

  /** The profile lookup, `users.profile.get({user, token})`, given as the
      answer the directory would give for each user id and token. */
  type ProfileLookup = (string, string) -> Result<ProfileResponse, LookupError>

  /** The real name a lookup response carries, when it is truthy. */
  predicate HasRealName(response: ProfileResponse) {
    response.profile.Some? && Truthy(response.profile.value.realName)
  }

  /** getRealNameFromAPI. Nothing catches a rejected lookup, so it reaches
      the caller as an error. */
  method GetRealNameFromAPI(lookup: ProfileLookup, userToken: string, userId: Option<string>)
    returns (username: Result<string, LookupError>)
    ensures !Truthy(userId) ==> username == Ok(NotAssigned)
    ensures Truthy(userId) ==>
      match lookup(userId.value, userToken)
      case Err(e) => username == Err(e)
      case Ok(response) =>
        username == Ok(if HasRealName(response) then response.profile.value.realName.value else NotAssigned)
    ensures username.Ok? ==>
      username.value == NotAssigned || (username.value != "" && Truthy(userId))
  {
    var name := NotAssigned;
    if Truthy(userId) {
      var response := lookup(userId.value, userToken);
      if response.Err? {
        return Err(response.error);
      }
      if HasRealName(response.value) {
        name := response.value.profile.value.realName.value;
      }
    }
    username := Ok(name);
  }
}
