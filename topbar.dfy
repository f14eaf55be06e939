/** The top bar's profile handling: the in-memory `profileCache`, the
    picture-upload guard against re-sending the same file, the forced
    re-fetch after an upload, and logout clearing the cache. */
module Topbar {
  import opened Wrappers
  import Ttl

  /** `profileCache.maxAge`: five minutes in milliseconds. */
  const ProfileMaxAge: int := 5 * 60 * 1000

  /** The profile request's outcome as a cache response: the `profileInfo`
      of the body, or an error (whose message only reaches a toast). */
  function AsResponse<P>(response: Option<P>): Ttl.Response<P> {
    match response
    case Some(info) => Ttl.Fetched(info)
    case None => Ttl.Failed("")
  }

  /** The component's profile state and its cache object. The cache is one
      object owned by this bar. */
  class ProfileBar<P> {
    var cacheData: Option<P>
    var cacheTimestamp: Option<int>
    const maxAge: int
    var profileData: Option<P>
    var lastUploadedFileName: Option<string>
    var isLoading: bool

    /** The cache as a `{ data, timestamp }` entry. */
    function Entry(): Ttl.Entry<P>
      reads this
    {
      Ttl.Entry(cacheData, cacheTimestamp)
    }

    /** The initial state: empty cache, no profile, no upload yet. */
    constructor ()
      ensures Entry() == Ttl.EmptyEntry() && maxAge == ProfileMaxAge
      ensures profileData.None? && lastUploadedFileName.None? && !isLoading
    {
      cacheData := None;
      cacheTimestamp := None;
      maxAge := ProfileMaxAge;
      profileData := None;
      lastUploadedFileName := None;
      isLoading := false;
    }

    /** `getProfileData(forceRefresh)` at time `now`; `response` is the
        `profileInfo` the request would deliver, or `None` if it fails, and
        `storedAt` the time it arrives. A fresh entry is shown without a
        request; a successful request stores `profileInfo` with the arrival
        time and shows it; a failure writes nothing. */
    method GetProfileData(now: int, forceRefresh: bool, response: Option<P>, storedAt: int) returns (requested: bool)
      modifies this
      ensures var l := Ttl.ReadThrough(old(Entry()), now, maxAge, forceRefresh, AsResponse(response), storedAt);
        && requested == l.requested
        && Entry() == l.entry
        && profileData == (if l.answer.Value? then Some(l.answer.value) else old(profileData))
      ensures lastUploadedFileName == old(lastUploadedFileName) && !isLoading
    {
      isLoading := true;
      if !forceRefresh && cacheData.Some? && cacheTimestamp.Some? && cacheTimestamp.value != 0
         && now - cacheTimestamp.value < maxAge {
        profileData := cacheData;
        isLoading := false;
        return false;
      }
      requested := true;
      if response.Some? {
        cacheData := response;
        cacheTimestamp := Some(storedAt);
        profileData := response;
      }
      isLoading := false;
    }

    /** `handleProfilePicChange` with the chosen file's name, if any. No
        file, or the name of the last upload, does nothing; otherwise the
        upload starts and the name is recorded at once, before the upload
        has an outcome, so a failed upload still blocks the same name. */
    method HandleProfilePicChange(fileName: Option<string>) returns (upload: bool)
      modifies this
      ensures upload <==> fileName.Some? && fileName != old(lastUploadedFileName)
      ensures lastUploadedFileName == if upload then fileName else old(lastUploadedFileName)
      ensures Entry() == old(Entry()) && profileData == old(profileData) && isLoading == old(isLoading)
    {
      if fileName.None? {
        return false;
      }
      if fileName == lastUploadedFileName {
        return false;
      }
      upload := true;
      lastUploadedFileName := fileName;
    }

    /** `updateUserImage`: when the upload is accepted (`accepted`, the
        truthiness of its response body) the profile is fetched again with
        `forceRefresh`, so a request is always made; otherwise nothing
        changes. */
    method UpdateUserImage(accepted: bool, now: int, response: Option<P>, storedAt: int) returns (refetched: bool)
      modifies this
      ensures refetched == accepted
      ensures !accepted ==> Entry() == old(Entry()) && profileData == old(profileData)
      ensures accepted ==> match response
        case Some(info) => Entry() == Ttl.Entry(Some(info), Some(storedAt)) && profileData == Some(info)
        case None => Entry() == old(Entry()) && profileData == old(profileData)
      ensures lastUploadedFileName == old(lastUploadedFileName)
    {
      refetched := false;
      if accepted {
        var requested := GetProfileData(now, true, response, storedAt);
        refetched := true;
      }
    }

    /** `handleLogout`: the cache's data and timestamp become null; the
        profile shown and the last file name are left alone. */
    method HandleLogout()
      modifies this
      ensures Entry() == Ttl.EmptyEntry()
      ensures profileData == old(profileData) && lastUploadedFileName == old(lastUploadedFileName)
      ensures isLoading == old(isLoading)
    {
      cacheData := None;
      cacheTimestamp := None;
    }
  }

  /** The profile entry is served without a request exactly when the read
      is not forced, data and a non-zero timestamp are set, and the entry is
      younger than five minutes; then the cached profile is shown. */
  lemma {:induction false} ProfileServedIff<P>(e: Ttl.Entry<P>, now: int, forceRefresh: bool, response: Option<P>, storedAt: int)
    ensures var l := Ttl.ReadThrough(e, now, ProfileMaxAge, forceRefresh, AsResponse(response), storedAt);
      !l.requested <==> !forceRefresh && e.data.Some? && e.timestamp.Some? && e.timestamp.value != 0
                         && now - e.timestamp.value < 300000
    ensures var l := Ttl.ReadThrough(e, now, ProfileMaxAge, forceRefresh, AsResponse(response), storedAt);
      !l.requested ==> l.answer == Ttl.Value(e.data.value) && l.entry == e
  {
  }

  /** A failed profile request neither writes the cache nor changes what
      is shown. */
  lemma FailedFetchWritesNothing<P>(e: Ttl.Entry<P>, now: int, forceRefresh: bool, storedAt: int)
    ensures var l := Ttl.ReadThrough(e, now, ProfileMaxAge, forceRefresh, AsResponse<P>(None), storedAt);
      l.entry == e && !l.answer.Value? <== l.requested
  {
  }
}
