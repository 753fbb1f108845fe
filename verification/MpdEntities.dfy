/** Entities of a listing: a header element followed by the elements that describe it. */
module MpdEntities {
  import opened Text
  import opened MpdProtocol

  const NO_TIME := -1      // MPD_SONG_NO_TIME
  const NO_NUM := -1       // MPD_SONG_NO_NUM
  const NO_ID := -1        // MPD_SONG_NO_ID

  datatype Song = Song(
    file: string, artist: Option<string>, album: Option<string>, title: Option<string>, track: Option<string>,
    name: Option<string>, date: Option<string>, time: int, pos: int, id: int)

  datatype Entity =
    | SongEntity(song: Song)
    | DirectoryEntity(path: string)
    | PlaylistEntity(path: string)

  function NewSong(file: string): Song {
    Song(file, None, None, None, None, None, None, NO_TIME, NO_NUM, NO_ID)
  }

  predicate IsHeader(e: Element) {
    e.name == "file" || e.name == "directory" || e.name == "playlist"
  }

  function NewEntity(header: Element): Entity
    requires IsHeader(header)
  {
    if header.name == "file" then SongEntity(NewSong(header.value))
    else if header.name == "directory" then DirectoryEntity(header.value)
    else PlaylistEntity(header.value)
  }

  /** Decimal digits at the start of `s`. */
  function Digits(s: string, acc: int): int {
    if s != "" && '0' <= s[0] <= '9' then Digits(s[1..], acc * 10 + (s[0] as int - '0' as int)) else acc
  }

  function SkipSpace(s: string): string {
    if s != "" && (s[0] == ' ' || '\t' <= s[0] <= '\r') then SkipSpace(s[1..]) else s
  }

  /** `atoi`, for numbers that fit an int. */
  function Atoi(s: string): int {
    var t := SkipSpace(s);
    if t != "" && t[0] == '-' then -Digits(t[1..], 0)
    else if t != "" && t[0] == '+' then Digits(t[1..], 0)
    else Digits(t, 0)
  }

  /** One descriptive element of a song: a tag is set once, and only to a non-empty value. */
  function AddTag(song: Song, e: Element): Song {
    if e.value == "" then song
    else if song.artist.None? && e.name == "Artist" then song.(artist := Some(e.value))
    else if song.album.None? && e.name == "Album" then song.(album := Some(e.value))
    else if song.title.None? && e.name == "Title" then song.(title := Some(e.value))
    else if song.track.None? && e.name == "Track" then song.(track := Some(e.value))
    else if song.name.None? && e.name == "Name" then song.(name := Some(e.value))
    else if song.time == NO_TIME && e.name == "Time" then song.(time := Atoi(e.value))
    else if song.pos == NO_NUM && e.name == "Pos" then song.(pos := Atoi(e.value))
    else if song.id == NO_ID && e.name == "Id" then song.(id := Atoi(e.value))
    else if song.date.None? && e.name == "Date" then song.(date := Some(e.value))
    else song
  }

  function Describe(entity: Entity, e: Element): Entity {
    if entity.SongEntity? then SongEntity(AddTag(entity.song, e)) else entity
  }

  /** The loop over the elements that follow a header; it stops with the next header looked at but not used. */
  function Collect(c: Conn, entity: Entity): (Conn, Entity)
    decreases Measure(c)
  {
    var element := c.session.returnElement;
    if element.None? || IsHeader(element.value) || Blocked(c.session) then (c, entity)
    else
      GetProgress(c);
      Collect(Get(c), Describe(entity, element.value))
  }

  /** `mpd_getNextInfoEntity` */
  function NextEntity(c: Conn): (Conn, Option<Entity>) {
    if Blocked(c.session) then (c, None)
    else
      var c1 := if c.session.returnElement.None? then Get(c) else c;
      if c1.session.returnElement.None? then (c1, None)
      else
        var header := c1.session.returnElement.value;
        if !IsHeader(header) then (c1.(session := c1.session.(error := 1)), None)
        else
          var r := Collect(Get(c1), NewEntity(header));
          (r.0, Some(r.1))
  }
}
