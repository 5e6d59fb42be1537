/** The upload form builder: the tracker's default form fields with every
    value turned into a string (`stringify_ints`), then adjusted for one
    upload (`prepare_upload`). The configuration is passed in as the dict of
    trackers instead of being read from process-wide state. */
module Upload {
  import Strings
  import EmptyKeys
  import Config

  /** Python's `str(value)` for a `str` or an `int` value. */
  function ValueToString(v: EmptyKeys.Value): string {
    match v
    case Str(s) => s
    case Int(i) => Strings.IntToString(i)
  }

  /** `stringify_ints(d)`: the same keys, each value replaced by its string form. */
  function StringifyInts(d: map<string, EmptyKeys.Value>): (r: map<string, string>)
    ensures r.Keys == d.Keys
    ensures forall k :: k in d ==> r[k] == ValueToString(d[k])
  {
    map k | k in d :: ValueToString(d[k])
  }

  /** Stringifying loses nothing: a string value is kept as it is, and an
      integer value reads back from its decimal form. */
  lemma StringifyIntsLossless(d: map<string, EmptyKeys.Value>, k: string)
    requires k in d
    ensures d[k].Str? ==> StringifyInts(d)[k] == d[k].s
    ensures d[k].Int? ==>
              Strings.IsCanonicalDecimal(StringifyInts(d)[k]) && Strings.ParseInt(StringifyInts(d)[k]) == d[k].i
  {
    if d[k].Int? {
      Strings.IntToStringRoundTrip(d[k].i);
    }
  }

  /** The keys of the dict built from a tracker's form fields. */
  lemma PayloadDictKeys(p: Config.Payload)
    ensures Config.PayloadDict(p).Keys
         == {"auth", "checkonly", "submit", "genre_tags", "fontfont", "fontsize", "MAX_FILE_SIZE", "anonymous"}
  {
    var fs := Config.PayloadFields(p);
    assert fs[0].0 == "auth" && fs[1].0 == "checkonly" && fs[2].0 == "submit" && fs[3].0 == "genre_tags";
    assert fs[4].0 == "fontfont" && fs[5].0 == "fontsize" && fs[6].0 == "MAX_FILE_SIZE" && fs[7].0 == "anonymous";
    forall k | k in Config.PayloadDict(p)
      ensures k in {"auth", "checkonly", "submit", "genre_tags", "fontfont", "fontsize", "MAX_FILE_SIZE", "anonymous"}
    {
      var i :| 0 <= i < |fs| && fs[i].0 == k;
    }
  }

  /** The values of the dict built from a tracker's form fields. */
  lemma PayloadDictValues(p: Config.Payload)
    ensures "auth" in Config.PayloadDict(p) && Config.PayloadDict(p)["auth"] == EmptyKeys.Str(p.auth)
    ensures "checkonly" in Config.PayloadDict(p) && Config.PayloadDict(p)["checkonly"] == EmptyKeys.Str(p.checkonly)
    ensures "submit" in Config.PayloadDict(p) && Config.PayloadDict(p)["submit"] == EmptyKeys.Str(p.submit)
    ensures "genre_tags" in Config.PayloadDict(p) && Config.PayloadDict(p)["genre_tags"] == EmptyKeys.Str(p.genre_tags)
    ensures "fontfont" in Config.PayloadDict(p) && Config.PayloadDict(p)["fontfont"] == EmptyKeys.Int(p.fontfont)
    ensures "fontsize" in Config.PayloadDict(p) && Config.PayloadDict(p)["fontsize"] == EmptyKeys.Int(p.fontsize)
    ensures "MAX_FILE_SIZE" in Config.PayloadDict(p) && Config.PayloadDict(p)["MAX_FILE_SIZE"] == EmptyKeys.Int(p.MAX_FILE_SIZE)
    ensures "anonymous" in Config.PayloadDict(p) && Config.PayloadDict(p)["anonymous"] == EmptyKeys.Int(p.anonymous)
  {
    var fs := Config.PayloadFields(p);
    assert fs[0].0 == "auth" && fs[1].0 == "checkonly" && fs[2].0 == "submit" && fs[3].0 == "genre_tags";
    assert fs[4].0 == "fontfont" && fs[5].0 == "fontsize" && fs[6].0 == "MAX_FILE_SIZE" && fs[7].0 == "anonymous";
  }

  /** A tracker's form fields, as strings. */
  lemma StringifiedPayload(p: Config.Payload)
    ensures StringifyInts(Config.PayloadDict(p))
         == map["auth" := p.auth, "checkonly" := p.checkonly, "submit" := p.submit,
                "genre_tags" := p.genre_tags, "fontfont" := Strings.IntToString(p.fontfont),
                "fontsize" := Strings.IntToString(p.fontsize),
                "MAX_FILE_SIZE" := Strings.IntToString(p.MAX_FILE_SIZE),
                "anonymous" := Strings.IntToString(p.anonymous)]
  {
    PayloadDictKeys(p);
    PayloadDictValues(p);
  }

  /** The built-in form fields, as strings. */
  lemma DefaultFormFields()
    ensures StringifyInts(Config.PayloadDict(Config.Payload()))
         == map["auth" := "", "checkonly" := "check for dupes", "submit" := "true",
                "genre_tags" := "---", "fontfont" := "-1", "fontsize" := "-1",
                "MAX_FILE_SIZE" := "2097152", "anonymous" := "1"]
  {
    StringifiedPayload(Config.Payload());
    assert Strings.IntToString(-1) == "-1";
    assert Strings.IntToString(1) == "1";
    assert Strings.NatToString(2097152) == "2097152" by {
      assert Strings.NatToString(2) == "2";
      assert Strings.NatToString(20) == "20";
      assert Strings.NatToString(209) == "209";
      assert Strings.NatToString(2097) == "2097";
      assert Strings.NatToString(20971) == "20971";
      assert Strings.NatToString(209715) == "209715";
    }
  }

  // ---------------------------------------------------------------------------
  // Description markup for the tracker that lacks two fonts
  // ---------------------------------------------------------------------------

  const AleoFont := "[font=Aleo]"
  const PalatinoFont := "[font=Palatino Linotype]"
  const QuanticoFont := "[font=Quantico]"
  const SansSerifFont := "[font=Microsoft Sans Serif]"

  /** Every Aleo font tag becomes a Palatino Linotype tag, and then every
      Quantico font tag a Microsoft Sans Serif tag. */
  function FontSubstitution(bbcode: string): string {
    Strings.ReplaceAll(Strings.ReplaceAll(bbcode, AleoFont, PalatinoFont), QuanticoFont, SansSerifFont)
  }

  /** A description without the two font tags goes out unchanged. */
  lemma FontSubstitutionWithoutFonts(bbcode: string)
    requires !Strings.Contains(bbcode, AleoFont) && !Strings.Contains(bbcode, QuanticoFont)
    ensures FontSubstitution(bbcode) == bbcode
  {
    Strings.ReplaceAbsent(bbcode, AleoFont, PalatinoFont);
    Strings.ReplaceAbsent(bbcode, QuanticoFont, SansSerifFont);
  }

  /** Each stage keeps the text between the font tags and swaps only the
      tags: it splits on the old tag and joins with the new one. */
  lemma FontSubstitutionStages(bbcode: string)
    ensures FontSubstitution(bbcode)
         == Strings.Join(SansSerifFont,
              Strings.Split(Strings.Join(PalatinoFont, Strings.Split(bbcode, AleoFont)), QuanticoFont))
  {
    Strings.ReplaceIsJoinOfSplit(bbcode, AleoFont, PalatinoFont);
    Strings.ReplaceIsJoinOfSplit(Strings.ReplaceAll(bbcode, AleoFont, PalatinoFont), QuanticoFont, SansSerifFont);
  }

  // ---------------------------------------------------------------------------
  // prepare_upload
  // ---------------------------------------------------------------------------

  /** No field of a tracker's form is one that an upload adds. */
  lemma FieldNamesApart(p: Config.Payload, tracker: string)
    ensures "checkonly" in Config.PayloadDict(p)
    ensures forall k :: k in Config.PayloadDict(p) ==> k !in AddedKeys + NamingKeys(tracker)
  {
    var fs := Config.PayloadFields(p);
    assert fs[1].0 == "checkonly";
    forall k | k in Config.PayloadDict(p)
      ensures k !in AddedKeys + NamingKeys(tracker)
    {
      var i :| 0 <= i < |fs| && fs[i].0 == k;
      assert k in {"auth", "checkonly", "submit", "genre_tags", "fontfont", "fontsize", "MAX_FILE_SIZE", "anonymous"};
    }
  }

  /** The fields every upload form adds. */
  const AddedKeys: set<string> := {"ignoredupes", "category", "title", "image"}

  /** The tag-list and description fields are none of the fields every
      upload adds. */
  lemma NamingKeysNotAdded()
    ensures "tags" !in AddedKeys && "taglist" !in AddedKeys && "desc" !in AddedKeys
  {
  }

  /** The tracker-specific fields for the tag list and the description;
      tracker names other than these three get neither. */
  function NamingKeys(tracker: string): set<string> {
    if tracker == "Emp" || tracker == "Ent" then {"taglist", "desc"}
    else if tracker == "PBay" then {"tags", "desc"}
    else {}
  }

  /** `prepare_upload`: the form fields for uploading to `tracker`. Every
      default form field except `checkonly` is carried over in its string
      form (StringifiedPayload lists them), the four upload fields are
      added, and the tag list and description go under the field names of
      the tracker. */
  method PrepareUpload(cfg: map<string, Config.TrackerConfig>, bbcode: string, category: int,
                       cover: string, taglist: string, title: string, tracker: string)
    returns (payload: map<string, string>)
    requires tracker in cfg
    ensures var defaults := StringifyInts(Config.PayloadDict(cfg[tracker].payload));
            && payload.Keys == (defaults.Keys - {"checkonly"}) + AddedKeys + NamingKeys(tracker)
            && payload - (AddedKeys + NamingKeys(tracker)) == defaults - {"checkonly"}
    ensures "checkonly" !in payload
    ensures payload["ignoredupes"] == "1"
    ensures payload["category"] == Strings.IntToString(category)
    ensures payload["title"] == title && payload["image"] == cover
    ensures tracker == "Emp" || tracker == "Ent" ==>
              payload["taglist"] == taglist && payload["desc"] == bbcode
    ensures tracker == "PBay" ==>
              payload["tags"] == taglist && payload["desc"] == FontSubstitution(bbcode)
  {
    ghost var named := AddedKeys + NamingKeys(tracker);
    FieldNamesApart(cfg[tracker].payload, tracker);
    payload := StringifyInts(Config.PayloadDict(cfg[tracker].payload));
    payload := payload - {"checkonly"};
    ghost var carried := payload;
    assert carried - named == carried;
    UpdateOutside(payload, "ignoredupes", "1", named);
    payload := payload["ignoredupes" := "1"];
    UpdateOutside(payload, "category", Strings.IntToString(category), named);
    payload := payload["category" := Strings.IntToString(category)];
    UpdateOutside(payload, "title", title, named);
    payload := payload["title" := title];
    UpdateOutside(payload, "image", cover, named);
    payload := payload["image" := cover];

    if tracker == "Emp" || tracker == "Ent" {
      UpdateOutside(payload, "taglist", taglist, named);
      payload := payload["taglist" := taglist];
      UpdateOutside(payload, "desc", bbcode, named);
      payload := payload["desc" := bbcode];
    } else if tracker == "PBay" {
      UpdateOutside(payload, "tags", taglist, named);
      payload := payload["tags" := taglist];
      UpdateOutside(payload, "desc", FontSubstitution(bbcode), named);
      payload := payload["desc" := FontSubstitution(bbcode)];
    }
    assert payload - named == carried;
    assert named <= payload.Keys;
    KeysAroundSubtraction(payload, named);
  }

  /** Setting a key of `named` leaves the rest of the map as it was. */
  lemma UpdateOutside(m: map<string, string>, k: string, v: string, named: set<string>)
    requires k in named
    ensures m[k := v] - named == m - named
  {
  }

  /** A map's keys are those left after removing `named`, plus `named`
      itself when it holds all of them. */
  lemma KeysAroundSubtraction(m: map<string, string>, named: set<string>)
    requires named <= m.Keys
    ensures m.Keys == (m - named).Keys + named
  {
  }

  /** Uploading to `Pbay` with the built-in configuration: the tracker's
      key is `Pbay`, while the branch for its field names matches `PBay`,
      so the form gets neither a tag list nor a description. */
  method DefaultPbayUpload(bbcode: string, category: int, cover: string, taglist: string, title: string)
    returns (payload: map<string, string>)
    ensures "tags" !in payload && "desc" !in payload && "taglist" !in payload
  {
    var cfg := Config.ConfigMap(Config.DefaultConfig());
    assert "Pbay" in cfg;
    ghost var fields := StringifyInts(Config.PayloadDict(cfg["Pbay"].payload)).Keys;
    assert "tags" !in fields && "desc" !in fields && "taglist" !in fields by {
      FieldNamesApart(cfg["Pbay"].payload, "PBay");
      FieldNamesApart(cfg["Pbay"].payload, "Emp");
    }
    assert NamingKeys("Pbay") == {};
    NamingKeysNotAdded();
    payload := PrepareUpload(cfg, bbcode, category, cover, taglist, title, "Pbay");
    assert payload.Keys == (fields - {"checkonly"}) + AddedKeys;
  }
}
