/**
  The bot's configuration store: the mute duration in minutes and the list of
  banned keywords, the defaults it starts from, the merge of config.json over
  those defaults, the record that is written back, and the two list
  operations the admin commands apply to the keyword list.
*/
module Config {
  import opened Wrappers
  import opened Text

  /** The longest mute `/setmute` accepts: one week, in minutes. */
  const MaxMuteMinutes: int := 7 * 24 * 60

  const DefaultMuteMinutes: int := 10

  const DefaultBannedWords: seq<string> := ["spam", "quảng cáo", "link lừa đảo"]

  datatype ConfigRecord = ConfigRecord(muteMinutes: int, bannedWords: seq<string>)

  function Defaults(): ConfigRecord {
    ConfigRecord(DefaultMuteMinutes, DefaultBannedWords)
  }

  /** The "banned_words" entry of a parsed config.json. */
  datatype WordsField = WordsAbsent | WordsNotAList | WordsList(items: seq<string>)

  /** config.json as load_config finds it: missing, unreadable or not valid
      JSON, valid JSON that is not an object, or an object with (possibly)
      the two keys the bot reads. */
  datatype ConfigFile =
    | NoFile
    | Unreadable
    | NotAnObject
    | Object(muteMinutes: Option<int>, bannedWords: WordsField)

  /** load_config: the defaults, with a present "mute_minutes" taken over as
      it is and a non-empty "banned_words" list taken over in place of the
      default list. Every other file yields the defaults. */
  function LoadConfig(f: ConfigFile): (c: ConfigRecord)
    ensures c.bannedWords != []
    ensures !f.Object? ==> c == Defaults()
  {
    match f
    case Object(mute, words) =>
      ConfigRecord(
        mute.GetOr(DefaultMuteMinutes),
        if words.WordsList? && words.items != [] then words.items else DefaultBannedWords)
    case _ => Defaults()
  }

  /** save_config: the whole record, both keys. */
  function SavedFile(c: ConfigRecord): (f: ConfigFile)
    ensures f.Object? && f.muteMinutes == Some(c.muteMinutes)
  {
    Object(Some(c.muteMinutes), WordsList(c.bannedWords))
  }

  /** How each key of config.json decides its field: a present mute value
      always wins, and the file's list wins exactly when it is a non-empty
      list. */
  lemma LoadConfigMerge(mute: Option<int>, words: WordsField)
    ensures mute.Some? ==> LoadConfig(Object(mute, words)).muteMinutes == mute.value
    ensures mute.None? ==> LoadConfig(Object(mute, words)).muteMinutes == DefaultMuteMinutes
    ensures LoadConfig(Object(mute, words)).bannedWords == DefaultBannedWords
            <== !words.WordsList? || words.items == []
    ensures words.WordsList? && words.items != [] ==>
              LoadConfig(Object(mute, words)).bannedWords == words.items
  {
  }

  /** Loading what was saved gives back the same configuration, provided
      the keyword list is not empty. */
  lemma SaveThenLoad(c: ConfigRecord)
    requires c.bannedWords != []
    ensures LoadConfig(SavedFile(c)) == c
  {
  }

  /** A saved empty keyword list does not survive a reload: the default list
      comes back, while the mute duration is kept. */
  lemma SaveThenLoadEmptyList(mute: int)
    ensures LoadConfig(SavedFile(ConfigRecord(mute, []))) == ConfigRecord(mute, DefaultBannedWords)
  {
  }

  /** Every entry lower-cased, in order: `[w.lower() for w in words]`. */
  function Folded(words: seq<string>): (r: seq<string>)
    ensures |r| == |words|
    ensures forall i :: 0 <= i < |words| ==> r[i] == Lower(words[i])
  {
    seq(|words|, i requires 0 <= i < |words| => Lower(words[i]))
  }

  /** `word.lower() in [w.lower() for w in words]`. */
  predicate IsListed(words: seq<string>, word: string) {
    Lower(word) in Folded(words)
  }

  lemma IsListedIff(words: seq<string>, word: string)
    ensures IsListed(words, word) <==> exists i :: 0 <= i < |words| && Lower(words[i]) == Lower(word)
  {
    if IsListed(words, word) {
      var i :| 0 <= i < |words| && Folded(words)[i] == Lower(word);
    }
  }

  /** `[w for w in words if w.lower() != key]`. */
  function Without(words: seq<string>, key: string): (r: seq<string>)
    ensures |r| <= |words|
    ensures forall w :: w in r <==> w in words && Lower(w) != key
    ensures |r| == |words| <==> forall i :: 0 <= i < |words| ==> Lower(words[i]) != key
    ensures |r| == |words| ==> r == words
  {
    if words == [] then []
    else (if Lower(words[0]) != key then [words[0]] else []) + Without(words[1..], key)
  }

  /** Without works entry by entry, so it keeps the surviving entries in
      their original order: filtering a concatenation is the concatenation
      of the filtered parts. */
  lemma {:induction false} WithoutConcat(a: seq<string>, b: seq<string>, key: string)
    ensures Without(a + b, key) == Without(a, key) + Without(b, key)
  {
    if a == [] {
      assert a + b == b;
    } else {
      assert (a + b)[1..] == a[1..] + b;
      WithoutConcat(a[1..], b, key);
    }
  }

  /** A single entry survives Without exactly when its lower form differs
      from the key. */
  lemma WithoutSingle(w: string, key: string)
    ensures Without([w], key) == if Lower(w) != key then [w] else []
  {
    assert [w][1..] == [];
  }

  /** Filtering twice with the same key removes nothing more. */
  lemma {:induction false} WithoutIdempotent(words: seq<string>, key: string)
    ensures Without(Without(words, key), key) == Without(words, key)
  {
    if words != [] {
      var head := if Lower(words[0]) != key then [words[0]] else [];
      WithoutConcat(head, Without(words[1..], key), key);
      WithoutSingle(words[0], key);
      WithoutIdempotent(words[1..], key);
    }
  }

  /** No two entries have the same lower form. */
  ghost predicate DistinctFolded(words: seq<string>) {
    forall i, j :: 0 <= i < j < |words| ==> Lower(words[i]) != Lower(words[j])
  }

  /** The configuration the rest of the system expects: a mute duration in
      the range `/setmute` accepts, keywords that are not blank and that are
      distinct when lower-cased. */
  ghost predicate WellFormed(c: ConfigRecord) {
    && 1 <= c.muteMinutes <= MaxMuteMinutes
    && DistinctFolded(c.bannedWords)
    && forall i :: 0 <= i < |c.bannedWords| ==> !IsBlank(c.bannedWords[i])
  }

  lemma DefaultsWellFormed()
    ensures WellFormed(Defaults())
  {
    var w := DefaultBannedWords;
    assert |w[0]| == 4 && |w[1]| == 9 && |w[2]| == 12;
    assert !IsSpace(w[0][0]) && !IsSpace(w[1][0]) && !IsSpace(w[2][0]);
  }

  /** load_config does not check the stored mute duration: any integer in
      the file is taken over, even one `/setmute` would refuse. */
  lemma LoadConfigKeepsAnyMute(mute: int, words: WordsField)
    ensures LoadConfig(Object(Some(mute), words)).muteMinutes == mute
    ensures !WellFormed(LoadConfig(Object(Some(0), words)))
  {
  }
}
