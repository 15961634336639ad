/** The Playlist document (backend/models/Playlist.js): defaults, `addTrack`,
    `removeTrack`, `follow`, `unfollow` and the count virtuals. Tracks and
    followers are arrays used as sets, with the laws of module ListSet. */
module PlaylistModel {
  import opened Wrappers
  import opened ListSet
  import UserModel

  type ObjectId = UserModel.ObjectId

  datatype PlaylistDoc = PlaylistDoc(
    id: ObjectId,
    name: string,
    description: Option<string>,
    owner: ObjectId,
    tracks: seq<ObjectId>,
    coverImage: Option<string>,
    isPublic: bool,
    followers: seq<ObjectId>,
    tags: seq<string>)
  {
    /** The `trackCount` virtual. */
    function TrackCount(): nat {
      |tracks|
    }

    /** The `followerCount` virtual. */
    function FollowerCount(): nat {
      |followers|
    }

    /** The `totalDuration` virtual, a placeholder that is always zero. */
    function TotalDuration(): (seconds: int)
      ensures seconds == 0
    {
      0
    }
  }

  /** The in-memory document. */
  class Playlist {
    const id: ObjectId
    var name: string
    var description: Option<string>
    var owner: ObjectId
    var tracks: seq<ObjectId>
    var coverImage: Option<string>
    var isPublic: bool
    var followers: seq<ObjectId>
    var tags: seq<string>

    function Doc(): PlaylistDoc
      reads this
    {
      PlaylistDoc(id, name, description, owner, tracks, coverImage, isPublic, followers, tags)
    }

    /** Neither array holds an entry twice. */
    ghost predicate Valid()
      reads this
    {
      NoDup(tracks) && NoDup(followers)
    }

    /** A new playlist: no tracks, no followers, `coverImage: null` and
        `isPublic: false` by default. */
    constructor Create(newId: ObjectId, playlistName: string, playlistOwner: ObjectId)
      ensures Doc() == PlaylistDoc(newId, playlistName, None, playlistOwner, [], None, false, [], [])
      ensures Valid() && Doc().TrackCount() == 0 && Doc().FollowerCount() == 0
    {
      id := newId;
      name, description, owner := playlistName, None, playlistOwner;
      tracks, coverImage, isPublic, followers, tags := [], None, false, [], [];
    }

    /** `addTrack(musicId)`: pushed only when absent; `followers` is untouched. */
    method AddTrack(music: ObjectId)
      requires Valid()
      modifies this
      ensures Doc() == old(Doc()).(tracks := Add(old(tracks), music))
      ensures Valid() && music in tracks
    {
      AddKeepsNoDup(tracks, music);
      if music !in tracks {
        tracks := tracks + [music];
      }
    }

    /** `removeTrack(musicId)`: every occurrence filtered out, the rest in order;
        `followers` is untouched. */
    method RemoveTrack(music: ObjectId)
      requires Valid()
      modifies this
      ensures Doc() == old(Doc()).(tracks := RemoveAll(old(tracks), music))
      ensures Valid() && music !in tracks
    {
      RemoveAllKeepsNoDup(tracks, music);
      tracks := RemoveAll(tracks, music);
    }

    /** `follow(userId)`: pushed only when absent; `tracks` is untouched. */
    method Follow(user: ObjectId)
      requires Valid()
      modifies this
      ensures Doc() == old(Doc()).(followers := Add(old(followers), user))
      ensures Valid() && user in followers
    {
      AddKeepsNoDup(followers, user);
      if user !in followers {
        followers := followers + [user];
      }
    }

    /** `unfollow(userId)`: every occurrence filtered out; `tracks` is untouched. */
    method Unfollow(user: ObjectId)
      requires Valid()
      modifies this
      ensures Doc() == old(Doc()).(followers := RemoveAll(old(followers), user))
      ensures Valid() && user !in followers
    {
      RemoveAllKeepsNoDup(followers, user);
      followers := RemoveAll(followers, user);
    }
  }

  /** `trackCount` after `addTrack`: one more exactly when the track was absent. */
  lemma TrackCountAfterAdd(d: PlaylistDoc, music: ObjectId)
    ensures d.(tracks := Add(d.tracks, music)).TrackCount() == d.TrackCount() + (if music in d.tracks then 0 else 1)
  {
    AddSize(d.tracks, music);
  }

  /** `trackCount` after `removeTrack` on a duplicate-free list: one fewer exactly
      when the track was present. */
  lemma TrackCountAfterRemove(d: PlaylistDoc, music: ObjectId)
    requires NoDup(d.tracks)
    ensures d.(tracks := RemoveAll(d.tracks, music)).TrackCount() == d.TrackCount() - (if music in d.tracks then 1 else 0)
  {
    RemoveAllSize(d.tracks, music);
  }

  /** `followerCount` after `follow` and `unfollow`, likewise. */
  lemma FollowerCountAfterFollow(d: PlaylistDoc, user: ObjectId)
    requires NoDup(d.followers)
    ensures d.(followers := Add(d.followers, user)).FollowerCount() == d.FollowerCount() + (if user in d.followers then 0 else 1)
    ensures d.(followers := RemoveAll(d.followers, user)).FollowerCount() == d.FollowerCount() - (if user in d.followers then 1 else 0)
  {
    AddSize(d.followers, user);
    RemoveAllSize(d.followers, user);
  }

  /** Following then unfollowing, by a user who was not following, restores the
      followers exactly; the same holds for adding and removing a new track. */
  lemma AddThenRemoveRestores(d: PlaylistDoc, music: ObjectId, user: ObjectId)
    requires music !in d.tracks && user !in d.followers
    ensures RemoveAll(Add(d.tracks, music), music) == d.tracks
    ensures RemoveAll(Add(d.followers, user), user) == d.followers
  {
    RemoveAfterAdd(d.tracks, music);
    RemoveAfterAdd(d.followers, user);
  }
}
