/** The configuration model: the two cookie shapes of Luminance-based
    trackers, the upload form defaults, one tracker's settings, the
    built-in three-tracker configuration, and the plain built-in values
    (nested dicts of `str` and `int`) that the configuration is turned into
    before it is scanned for gaps and read by the upload builder. */
module Config {
  import EmptyKeys

  /** Session cookies. `NewLuminanceCookies` carries a client id and a
      session id, `OldLuminanceCookies` a single session token; converted to
      built-in values each is tagged by its `type` entry. Every field
      defaults to the empty string. */
  datatype Cookies =
    | NewLuminanceCookies(cid: string := "", sid: string := "")
    | OldLuminanceCookies(session: string := "")

  /** The default upload form fields of a tracker. */
  datatype Payload = Payload(
    auth: string := "",
    checkonly: string := "check for dupes",
    submit: string := "true",
    genre_tags: string := "---",
    fontfont: int := -1,
    fontsize: int := -1,
    MAX_FILE_SIZE: int := 2097152,
    anonymous: int := 1)

  datatype TrackerConfig = TrackerConfig(url: string, cookies: Cookies, payload: Payload)

  const EmporniumUrl := "https://www.empornium.sx"
  const EnthralledUrl := "https://www.enthralled.me"
  /** The one tracker that still runs the old Luminance cookie scheme. */
  const PornbayUrl := "https://www.pornbay.org"

  /** No cookie field has been filled in. */
  predicate CookiesUnset(c: Cookies) {
    match c
    case NewLuminanceCookies(cid, sid) => cid == "" && sid == ""
    case OldLuminanceCookies(session) => session == ""
  }

  /** `guess_tracker(url)`: the settings of a tracker known only by its URL. */
  function GuessTracker(url: string): (r: TrackerConfig)
    ensures r.url == url
    ensures r.cookies.OldLuminanceCookies? <==> url == PornbayUrl
    ensures r.cookies.NewLuminanceCookies? <==> url != PornbayUrl
    ensures CookiesUnset(r.cookies)
    ensures r.payload == Payload()
  {
    var cookies := if url == PornbayUrl then OldLuminanceCookies() else NewLuminanceCookies();
    TrackerConfig(url := url, cookies := cookies, payload := Payload())
  }

  /** `DefaultConfig`: one entry per known tracker, each guessed from its URL. */
  datatype DefaultConfig = DefaultConfig(
    Emp: TrackerConfig := GuessTracker(EmporniumUrl),
    Ent: TrackerConfig := GuessTracker(EnthralledUrl),
    Pbay: TrackerConfig := GuessTracker(PornbayUrl))

  /** The built-in configuration gives new-Luminance cookies to `Emp` and
      `Ent`, old-Luminance cookies to `Pbay`, empty cookie fields
      everywhere and the default form fields everywhere. */
  lemma DefaultConfigShape()
    ensures DefaultConfig().Emp.url == EmporniumUrl
    ensures DefaultConfig().Ent.url == EnthralledUrl
    ensures DefaultConfig().Pbay.url == PornbayUrl
    ensures DefaultConfig().Emp.cookies == NewLuminanceCookies(cid := "", sid := "")
    ensures DefaultConfig().Ent.cookies == NewLuminanceCookies(cid := "", sid := "")
    ensures DefaultConfig().Pbay.cookies == OldLuminanceCookies(session := "")
    ensures DefaultConfig().Emp.payload == DefaultConfig().Ent.payload == DefaultConfig().Pbay.payload == Payload()
  {
    assert EmporniumUrl != PornbayUrl && EnthralledUrl != PornbayUrl;
  }

  // ---------------------------------------------------------------------------
  // The configuration as built-in values
  // ---------------------------------------------------------------------------

  /** The form fields with their values, in declaration order. */
  function PayloadFields(p: Payload): seq<(string, EmptyKeys.Value)> {
    [ ("auth", EmptyKeys.Str(p.auth)),
      ("checkonly", EmptyKeys.Str(p.checkonly)),
      ("submit", EmptyKeys.Str(p.submit)),
      ("genre_tags", EmptyKeys.Str(p.genre_tags)),
      ("fontfont", EmptyKeys.Int(p.fontfont)),
      ("fontsize", EmptyKeys.Int(p.fontsize)),
      ("MAX_FILE_SIZE", EmptyKeys.Int(p.MAX_FILE_SIZE)),
      ("anonymous", EmptyKeys.Int(p.anonymous)) ]
  }

  predicate DistinctKeys(fs: seq<(string, EmptyKeys.Value)>) {
    forall i, j :: 0 <= i < j < |fs| ==> fs[i].0 != fs[j].0
  }

  /** A dict holding the given fields. */
  function AsMap(fs: seq<(string, EmptyKeys.Value)>): (m: map<string, EmptyKeys.Value>)
    requires DistinctKeys(fs)
    ensures forall i :: 0 <= i < |fs| ==> fs[i].0 in m && m[fs[i].0] == fs[i].1
    ensures forall k :: k in m ==> exists i :: 0 <= i < |fs| && fs[i].0 == k
  {
    map i | 0 <= i < |fs| :: fs[i].0 := fs[i].1
  }

  /** The form fields as the dict the upload builder starts from. */
  function PayloadDict(p: Payload): map<string, EmptyKeys.Value> {
    AsMap(PayloadFields(p))
  }

  function CookiesTree(c: Cookies): EmptyKeys.Tree {
    match c
    case NewLuminanceCookies(cid, sid) =>
      EmptyKeys.Dict([("type", EmptyKeys.Leaf(EmptyKeys.Str("new_luminance"))),
                      ("cid", EmptyKeys.Leaf(EmptyKeys.Str(cid))),
                      ("sid", EmptyKeys.Leaf(EmptyKeys.Str(sid)))])
    case OldLuminanceCookies(session) =>
      EmptyKeys.Dict([("type", EmptyKeys.Leaf(EmptyKeys.Str("old_luminance"))),
                      ("session", EmptyKeys.Leaf(EmptyKeys.Str(session)))])
  }

  /** One dict entry, a leaf, per field, in the order of `fs`. */
  function LeafEntries(fs: seq<(string, EmptyKeys.Value)>): (es: seq<(string, EmptyKeys.Tree)>)
    ensures |es| == |fs|
    ensures forall i :: 0 <= i < |fs| ==> es[i] == (fs[i].0, EmptyKeys.Leaf(fs[i].1))
    decreases |fs|
  {
    if fs == [] then [] else [(fs[0].0, EmptyKeys.Leaf(fs[0].1))] + LeafEntries(fs[1..])
  }

  /** The form fields converted to a dict, one leaf per field in
      declaration order. */
  function PayloadTree(p: Payload): EmptyKeys.Tree {
    EmptyKeys.Dict(LeafEntries(PayloadFields(p)))
  }

  function TrackerTree(t: TrackerConfig): EmptyKeys.Tree {
    EmptyKeys.Dict([("url", EmptyKeys.Leaf(EmptyKeys.Str(t.url))),
                    ("cookies", CookiesTree(t.cookies)),
                    ("payload", PayloadTree(t.payload))])
  }

  /** The whole configuration as built-in values. */
  function ConfigTree(c: DefaultConfig): EmptyKeys.Tree {
    EmptyKeys.Dict([("Emp", TrackerTree(c.Emp)),
                    ("Ent", TrackerTree(c.Ent)),
                    ("Pbay", TrackerTree(c.Pbay))])
  }

  /** The configuration as the dict of trackers that the upload builder
      indexes by tracker name. Its keys are the field names, so `PBay`
      is not among them. */
  function ConfigMap(c: DefaultConfig): (m: map<string, TrackerConfig>)
    ensures m.Keys == {"Emp", "Ent", "Pbay"}
    ensures "PBay" !in m
    ensures m["Emp"] == c.Emp && m["Ent"] == c.Ent && m["Pbay"] == c.Pbay
  {
    map["Emp" := c.Emp, "Ent" := c.Ent, "Pbay" := c.Pbay]
  }

  // ---------------------------------------------------------------------------
  // Configuration gaps, stated on the typed fields
  // ---------------------------------------------------------------------------

  /** The dotted name of field `name` of the structure named `key`. */
  function Dotted(key: string, name: string): string {
    key + "." + name
  }

  function Gap(key: string, value: string): seq<string> {
    if value == "" then [key] else []
  }

  function CookieGaps(key: string, c: Cookies): seq<string> {
    match c
    case NewLuminanceCookies(cid, sid) => Gap(Dotted(key, "cid"), cid) + Gap(Dotted(key, "sid"), sid)
    case OldLuminanceCookies(session) => Gap(Dotted(key, "session"), session)
  }

  function PayloadGaps(key: string, p: Payload): seq<string> {
    Gap(Dotted(key, "auth"), p.auth) + Gap(Dotted(key, "checkonly"), p.checkonly)
      + Gap(Dotted(key, "submit"), p.submit) + Gap(Dotted(key, "genre_tags"), p.genre_tags)
  }

  function TrackerGaps(key: string, t: TrackerConfig): seq<string> {
    Gap(Dotted(key, "url"), t.url) + CookieGaps(Dotted(key, "cookies"), t.cookies)
      + PayloadGaps(Dotted(key, "payload"), t.payload)
  }

  /** The dotted names of the empty string fields of a configuration, in
      declaration order. */
  function ConfigGaps(c: DefaultConfig): seq<string> {
    TrackerGaps("Emp", c.Emp) + TrackerGaps("Ent", c.Ent) + TrackerGaps("Pbay", c.Pbay)
  }

  lemma LeafGap(key: string, s: string)
    ensures EmptyKeys.EmptyLeafKeys(EmptyKeys.Leaf(EmptyKeys.Str(s)), key) == Gap(key, s)
  {
    EmptyKeys.LeafKeys(EmptyKeys.Str(s), key);
  }

  lemma IntLeafNoGap(key: string, i: int)
    ensures EmptyKeys.EmptyLeafKeys(EmptyKeys.Leaf(EmptyKeys.Int(i)), key) == []
  {
    EmptyKeys.LeafKeys(EmptyKeys.Int(i), key);
  }

  lemma CookiesScan(key: string, c: Cookies)
    requires key != ""
    ensures EmptyKeys.EmptyLeafKeys(CookiesTree(c), key) == CookieGaps(key, c)
  {
    var t := CookiesTree(c);
    EmptyKeys.EmptyKeysOfDict(t, key);
    match c
    case NewLuminanceCookies(cid, sid) =>
      LeafGap(Dotted(key, "type"), "new_luminance");
      LeafGap(Dotted(key, "cid"), cid);
      LeafGap(Dotted(key, "sid"), sid);
      assert EmptyKeys.ScannedUpTo(t, key, 1) == [];
      assert EmptyKeys.ScannedUpTo(t, key, 2) == Gap(Dotted(key, "cid"), cid);
      assert EmptyKeys.ScannedUpTo(t, key, 3) == CookieGaps(key, c);
    case OldLuminanceCookies(session) =>
      LeafGap(Dotted(key, "type"), "old_luminance");
      LeafGap(Dotted(key, "session"), session);
      assert EmptyKeys.ScannedUpTo(t, key, 1) == [];
      assert EmptyKeys.ScannedUpTo(t, key, 2) == CookieGaps(key, c);
  }


  /** Scanning one more entry, a string field, adds its gap. */
  lemma StrFieldStep(t: EmptyKeys.Tree, key: string, n: nat, name: string, s: string)
    requires key != "" && t.Dict? && n < |t.entries|
    requires t.entries[n] == (name, EmptyKeys.Leaf(EmptyKeys.Str(s)))
    ensures EmptyKeys.ScannedUpTo(t, key, n + 1) == EmptyKeys.ScannedUpTo(t, key, n) + Gap(Dotted(key, name), s)
  {
    LeafGap(Dotted(key, name), s);
  }

  /** Scanning one more entry, an integer field, adds nothing. */
  lemma IntFieldStep(t: EmptyKeys.Tree, key: string, n: nat, name: string, i: int)
    requires t.Dict? && n < |t.entries|
    requires t.entries[n] == (name, EmptyKeys.Leaf(EmptyKeys.Int(i)))
    ensures EmptyKeys.ScannedUpTo(t, key, n + 1) == EmptyKeys.ScannedUpTo(t, key, n)
  {
    IntLeafNoGap(EmptyKeys.ChildKey(key, name), i);
  }

  lemma PayloadScan(key: string, p: Payload)
    requires key != ""
    ensures EmptyKeys.EmptyLeafKeys(PayloadTree(p), key) == PayloadGaps(key, p)
  {
    FieldsScan(PayloadTree(p), key, p);
  }

  /** Scanning a dict whose entries are the form fields of `p`, one by one. */
  lemma FieldsScan(t: EmptyKeys.Tree, key: string, p: Payload)
    requires key != "" && t.Dict? && |t.entries| == 8
    requires t.entries[0] == ("auth", EmptyKeys.Leaf(EmptyKeys.Str(p.auth)))
    requires t.entries[1] == ("checkonly", EmptyKeys.Leaf(EmptyKeys.Str(p.checkonly)))
    requires t.entries[2] == ("submit", EmptyKeys.Leaf(EmptyKeys.Str(p.submit)))
    requires t.entries[3] == ("genre_tags", EmptyKeys.Leaf(EmptyKeys.Str(p.genre_tags)))
    requires t.entries[4] == ("fontfont", EmptyKeys.Leaf(EmptyKeys.Int(p.fontfont)))
    requires t.entries[5] == ("fontsize", EmptyKeys.Leaf(EmptyKeys.Int(p.fontsize)))
    requires t.entries[6] == ("MAX_FILE_SIZE", EmptyKeys.Leaf(EmptyKeys.Int(p.MAX_FILE_SIZE)))
    requires t.entries[7] == ("anonymous", EmptyKeys.Leaf(EmptyKeys.Int(p.anonymous)))
    ensures EmptyKeys.EmptyLeafKeys(t, key) == PayloadGaps(key, p)
  {
    EmptyKeys.EmptyKeysOfDict(t, key);
    StrFieldStep(t, key, 0, "auth", p.auth);
    StrFieldStep(t, key, 1, "checkonly", p.checkonly);
    StrFieldStep(t, key, 2, "submit", p.submit);
    StrFieldStep(t, key, 3, "genre_tags", p.genre_tags);
    IntFieldStep(t, key, 4, "fontfont", p.fontfont);
    IntFieldStep(t, key, 5, "fontsize", p.fontsize);
    IntFieldStep(t, key, 6, "MAX_FILE_SIZE", p.MAX_FILE_SIZE);
    IntFieldStep(t, key, 7, "anonymous", p.anonymous);
    var g1 := Gap(Dotted(key, "auth"), p.auth);
    var g2 := g1 + Gap(Dotted(key, "checkonly"), p.checkonly);
    var g3 := g2 + Gap(Dotted(key, "submit"), p.submit);
    var g4 := g3 + Gap(Dotted(key, "genre_tags"), p.genre_tags);
    assert EmptyKeys.ScannedUpTo(t, key, 0) + g1 == g1;
    assert EmptyKeys.ScannedUpTo(t, key, 4) == g4;
    assert EmptyKeys.ScannedUpTo(t, key, 8) == g4;
  }

  lemma TrackerScan(key: string, t: TrackerConfig)
    requires key != ""
    ensures EmptyKeys.EmptyLeafKeys(TrackerTree(t), key) == TrackerGaps(key, t)
  {
    var tree := TrackerTree(t);
    EmptyKeys.EmptyKeysOfDict(tree, key);
    LeafGap(Dotted(key, "url"), t.url);
    CookiesScan(Dotted(key, "cookies"), t.cookies);
    PayloadScan(Dotted(key, "payload"), t.payload);
    var g1 := Gap(Dotted(key, "url"), t.url);
    var g2 := g1 + CookieGaps(Dotted(key, "cookies"), t.cookies);
    assert EmptyKeys.ScannedUpTo(tree, key, 1) == g1;
    assert EmptyKeys.ScannedUpTo(tree, key, 2) == g2;
    assert EmptyKeys.ScannedUpTo(tree, key, 3) == TrackerGaps(key, t);
  }

  /** The start-up scan of the converted configuration reports exactly the
      empty string fields of the typed configuration, by their dotted
      names, in declaration order. */
  lemma ScanReportsEmptyFields(c: DefaultConfig)
    ensures EmptyKeys.EmptyLeafKeys(ConfigTree(c), "") == ConfigGaps(c)
  {
    var tree := ConfigTree(c);
    EmptyKeys.EmptyKeysOfDict(tree, "");
    TrackerStep(tree, 0, "Emp", c.Emp);
    TrackerStep(tree, 1, "Ent", c.Ent);
    TrackerStep(tree, 2, "Pbay", c.Pbay);
    var g1 := TrackerGaps("Emp", c.Emp);
    assert EmptyKeys.ScannedUpTo(tree, "", 0) + g1 == g1;
  }

  /** Scanning one more top-level entry, a tracker, adds that tracker's gaps. */
  lemma TrackerStep(tree: EmptyKeys.Tree, n: nat, name: string, t: TrackerConfig)
    requires name != "" && tree.Dict? && n < |tree.entries|
    requires tree.entries[n] == (name, TrackerTree(t))
    ensures EmptyKeys.ScannedUpTo(tree, "", n + 1) == EmptyKeys.ScannedUpTo(tree, "", n) + TrackerGaps(name, t)
  {
    TrackerScan(name, t);
  }

  lemma DefaultPayloadGaps(key: string)
    ensures PayloadGaps(key, Payload()) == [Dotted(key, "auth")]
  {
    var p := Payload();
    assert Gap(Dotted(key, "checkonly"), p.checkonly) == [];
    assert Gap(Dotted(key, "submit"), p.submit) == [];
    assert Gap(Dotted(key, "genre_tags"), p.genre_tags) == [];
  }

  /** The fields a tracker guessed from its URL leaves empty, named under
      `key`: both cookies of a new-Luminance tracker or the session cookie
      of an old-Luminance one, and `auth`. */
  function GuessedGapNames(key: string, oldLuminance: bool): seq<string> {
    (if oldLuminance then [key + ".cookies.session"] else [key + ".cookies.cid", key + ".cookies.sid"])
      + [key + ".payload.auth"]
  }

  /** A tracker guessed from a non-empty URL lacks its cookie fields and
      its `auth` field. */
  lemma GuessedTrackerGaps(key: string, url: string)
    requires url != ""
    ensures TrackerGaps(key, GuessTracker(url)) == GuessedGapNames(key, url == PornbayUrl)
  {
    DefaultPayloadGaps(Dotted(key, "payload"));
    assert Dotted(Dotted(key, "payload"), "auth") == key + ".payload.auth";
    assert Dotted(Dotted(key, "cookies"), "session") == key + ".cookies.session";
    assert Dotted(Dotted(key, "cookies"), "cid") == key + ".cookies.cid";
    assert Dotted(Dotted(key, "cookies"), "sid") == key + ".cookies.sid";
  }

  /** With the built-in configuration, the scan reports every cookie field
      and every `auth` field: `Emp.cookies.cid`, `Emp.cookies.sid`,
      `Emp.payload.auth`, the same three for `Ent`, then
      `Pbay.cookies.session` and `Pbay.payload.auth`. */
  lemma DefaultConfigGaps()
    ensures EmptyKeys.EmptyLeafKeys(ConfigTree(DefaultConfig()), "")
         == GuessedGapNames("Emp", false) + GuessedGapNames("Ent", false) + GuessedGapNames("Pbay", true)
  {
    ScanReportsEmptyFields(DefaultConfig());
    DefaultConfigTypedGaps();
  }

  lemma DefaultConfigTypedGaps()
    ensures ConfigGaps(DefaultConfig())
         == GuessedGapNames("Emp", false) + GuessedGapNames("Ent", false) + GuessedGapNames("Pbay", true)
  {
    DefaultConfigShape();
    GuessedTrackerGaps("Emp", EmporniumUrl);
    GuessedTrackerGaps("Ent", EnthralledUrl);
    GuessedTrackerGaps("Pbay", PornbayUrl);
  }

  /** Every cookie field is filled in. */
  predicate CookiesPopulated(c: Cookies) {
    match c
    case NewLuminanceCookies(cid, sid) => cid != "" && sid != ""
    case OldLuminanceCookies(session) => session != ""
  }

  /** Every string field of one tracker's settings is filled in. */
  predicate TrackerPopulated(t: TrackerConfig) {
    && t.url != ""
    && CookiesPopulated(t.cookies)
    && t.payload.auth != "" && t.payload.checkonly != ""
    && t.payload.submit != "" && t.payload.genre_tags != ""
  }

  /** Every string field of the configuration is filled in. */
  predicate Populated(c: DefaultConfig) {
    TrackerPopulated(c.Emp) && TrackerPopulated(c.Ent) && TrackerPopulated(c.Pbay)
  }

  /** A fully filled-in configuration draws no warning. */
  lemma PopulatedHasNoGaps(c: DefaultConfig)
    requires Populated(c)
    ensures EmptyKeys.EmptyLeafKeys(ConfigTree(c), "") == []
  {
    ScanReportsEmptyFields(c);
  }

  /** A configuration whose only empty field is `Emp.payload.auth` draws a
      warning for exactly that key. */
  lemma OnlyEmpAuthMissing(c: DefaultConfig)
    requires Populated(c.(Emp := c.Emp.(payload := c.Emp.payload.(auth := "x"))))
    requires c.Emp.payload.auth == ""
    ensures EmptyKeys.EmptyLeafKeys(ConfigTree(c), "") == ["Emp.payload.auth"]
  {
    ScanReportsEmptyFields(c);
    var p := c.Emp.payload;
    assert Dotted("Emp", "payload") == "Emp.payload";
    assert Dotted("Emp.payload", "auth") == "Emp.payload.auth";
    assert Gap("Emp.payload.checkonly", p.checkonly) == [];
    assert Gap("Emp.payload.submit", p.submit) == [];
    assert Gap("Emp.payload.genre_tags", p.genre_tags) == [];
    assert PayloadGaps("Emp.payload", p) == ["Emp.payload.auth"];
    assert CookieGaps("Emp.cookies", c.Emp.cookies) == [];
    assert TrackerGaps("Emp", c.Emp) == ["Emp.payload.auth"];
    assert TrackerGaps("Ent", c.Ent) == [];
    assert TrackerGaps("Pbay", c.Pbay) == [];
  }
}
