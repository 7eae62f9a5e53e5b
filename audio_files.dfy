/**
 * How server_full.js names the audio files it writes and which Google TTS
 * voice it asks for. An uploaded name is reduced to its last path
 * component; every name then has each character outside `[A-Za-z0-9._-]`
 * replaced by `_`.
 */
module AudioFiles {
  import opened JsValues
  import opened Text

  // ---------------------------------------------------------------------------
  // The sanitiser `.replace(/[^a-zA-Z0-9._-]/g, '_')`

  /** The characters the sanitiser keeps: `[a-zA-Z0-9._-]`. */
  predicate SafeChar(c: char)
  {
    ('a' <= c <= 'z') || ('A' <= c <= 'Z') || ('0' <= c <= '9') || c == '.' || c == '_' || c == '-'
  }

  /** Every character outside the safe set becomes `_`. */
  function Sanitize(s: string): (r: string)
    ensures |r| == |s|
    ensures forall i :: 0 <= i < |s| ==> r[i] == (if SafeChar(s[i]) then s[i] else '_')
  {
    if s == [] then [] else [if SafeChar(s[0]) then s[0] else '_'] + Sanitize(s[1..])
  }

  /** A sanitised name holds only safe characters, so in particular no path separator. */
  lemma SanitizedIsSafe(s: string)
    ensures forall i :: 0 <= i < |Sanitize(s)| ==> SafeChar(Sanitize(s)[i])
    ensures '/' !in Sanitize(s)
  {
  }

  /** Sanitising is idempotent, and a name of safe characters is left as it is. */
  lemma {:induction false} SanitizeFixes(s: string)
    ensures Sanitize(Sanitize(s)) == Sanitize(s)
    ensures Sanitize(s) == s <==> forall i :: 0 <= i < |s| ==> SafeChar(s[i])
  {
    SanitizedIsSafe(s);
    if Sanitize(s) == s {
      forall i | 0 <= i < |s|
        ensures SafeChar(s[i])
      {
        assert s[i] == Sanitize(s)[i];
      }
    }
  }

  // ---------------------------------------------------------------------------
  // `path.basename` (POSIX)

  /** The path without its trailing slashes. */
  function TrimTrailingSlashes(s: string): (r: string)
    ensures |r| <= |s| && r == s[..|r|]
    ensures r == [] || r[|r| - 1] != '/'
    ensures forall i :: |r| <= i < |s| ==> s[i] == '/'
  {
    if s != [] && s[|s| - 1] == '/' then TrimTrailingSlashes(s[..|s| - 1]) else s
  }

  /** What follows the last slash, or the whole string when it holds none. */
  function AfterLastSlash(s: string): (r: string)
    ensures |r| <= |s| && r == s[|s| - |r|..]
    ensures '/' !in r
    ensures |r| < |s| ==> s[|s| - |r| - 1] == '/'
  {
    if s == [] then []
    else if s[|s| - 1] == '/' then []
    else AfterLastSlash(s[..|s| - 1]) + [s[|s| - 1]]
  }

  /** `path.basename(p)`: the last component, ignoring trailing slashes. */
  function Basename(p: string): (r: string)
    ensures '/' !in r
  {
    AfterLastSlash(TrimTrailingSlashes(p))
  }

  /** Taking the basename twice gives what taking it once gives. */
  lemma BasenameIdempotent(p: string)
    ensures Basename(Basename(p)) == Basename(p)
  {
    BasenameOfComponent(Basename(p));
  }

  /** A name with no slash is its own basename. */
  lemma {:induction false} BasenameOfComponent(s: string)
    requires '/' !in s
    ensures Basename(s) == s
  {
    assert TrimTrailingSlashes(s) == s by {
      if s != [] {
        assert s[|s| - 1] in s;
      }
    }
    AfterLastSlashWhole(s);
  }

  /** A name without slashes is all of what follows its last slash. */
  lemma {:induction false} AfterLastSlashWhole(s: string)
    requires '/' !in s
    ensures AfterLastSlash(s) == s
  {
    if s != [] {
      assert s[|s| - 1] in s;
      assert forall c :: c in s[..|s| - 1] ==> c in s;
      AfterLastSlashWhole(s[..|s| - 1]);
      assert s == s[..|s| - 1] + [s[|s| - 1]];
    }
  }

  /** The basename of `dir/name`, with or without trailing slashes, is `name`. */
  lemma {:induction false} BasenameOfJoin(dir: string, name: string, slashes: nat)
    requires name != [] && '/' !in name
    ensures Basename(dir + "/" + name + seq(slashes, _ => '/')) == name
  {
    var tail := seq(slashes, _ => '/');
    var p := dir + "/" + name + tail;
    TrimTrailingSlashesAppend(dir + "/" + name, slashes);
    var q := dir + "/" + name;
    assert q[..|q| - |name|] == dir + "/";
    AfterLastSlashSuffix(dir + "/", name);
  }

  /** Trailing slashes appended to a name that does not end in one are exactly what trimming removes. */
  lemma {:induction false} TrimTrailingSlashesAppend(q: string, slashes: nat)
    requires q != [] && q[|q| - 1] != '/'
    ensures TrimTrailingSlashes(q + seq(slashes, _ => '/')) == q
    decreases slashes
  {
    if slashes > 0 {
      var p := q + seq(slashes, _ => '/');
      assert p[|p| - 1] == '/';
      assert p[..|p| - 1] == q + seq(slashes - 1, _ => '/');
      TrimTrailingSlashesAppend(q, slashes - 1);
    } else {
      assert q + seq(0, _ => '/') == q;
    }
  }

  /** What follows the last slash of `prefix + name` is `name`, when `prefix` ends in a slash. */
  lemma {:induction false} AfterLastSlashSuffix(prefix: string, name: string)
    requires prefix != [] && prefix[|prefix| - 1] == '/' && '/' !in name
    ensures AfterLastSlash(prefix + name) == name
    decreases |name|
  {
    if name == [] {
      assert prefix + name == prefix;
    } else {
      var p := prefix + name;
      var init, last := name[..|name| - 1], name[|name| - 1];
      assert name == init + [last];
      assert last != '/' && '/' !in init;
      assert p == (prefix + init) + [last];
      AfterLastSlashSuffix(prefix, init);
    }
  }

  // ---------------------------------------------------------------------------
  // The names the endpoints write under

  /**
   * `/api/audio`'s name: `path.basename(fileName)` sanitised. None when
   * `fileName` is not a string: `path.basename` throws, outside the
   * handler's try block.
   */
  function UploadName(fileName: Json): (r: Option<string>)
    ensures r.Some? <==> fileName.JStr?
    ensures r.Some? ==> r.value == Sanitize(Basename(fileName.s)) && '/' !in r.value
  {
    SanitizedIsSafe(if fileName.JStr? then Basename(fileName.s) else "");
    if fileName.JStr? then Some(Sanitize(Basename(fileName.s))) else None
  }

  /**
   * `/api/tts`'s and the batch's name: `(fileName || generated)` sanitised,
   * where `generated` is the time-stamped default. None when `fileName` is a
   * truthy non-string, whose missing `replace` throws.
   */
  function SpeechFileName(fileName: Option<Json>, generated: string): (r: Option<string>)
    ensures !Truthy(fileName) ==> r == Some(Sanitize(generated))
    ensures Truthy(fileName) ==> (r.Some? <==> fileName.value.JStr?)
    ensures Truthy(fileName) && fileName.value.JStr? ==> r == Some(Sanitize(fileName.value.s))
  {
    var name := Or(fileName, JStr(generated));
    if name.JStr? then Some(Sanitize(name.s)) else None
  }

  // ---------------------------------------------------------------------------
  // Voices and texts

  /** `voice = 'Charon'` in a destructuring: the default applies only to an absent voice. */
  function RequestedVoice(voice: Option<Json>): Json
  {
    if voice.None? then JStr("Charon") else voice.value
  }

  /** `voice === 'Charon' ? 'en-US-Wavenet-F' : 'en-US-Wavenet-E'`, after the default. */
  function VoiceName(voice: Option<Json>): (name: string)
  {
    if RequestedVoice(voice) == JStr("Charon") then "en-US-Wavenet-F" else "en-US-Wavenet-E"
  }

  /**
   * Exactly the absent voice and `'Charon'` are spoken by Wavenet-F; any
   * other value, including null, an empty string and other names, by
   * Wavenet-E.
   */
  lemma VoiceMapping(voice: Option<Json>)
    ensures VoiceName(voice) == "en-US-Wavenet-F" <==> voice.None? || voice == Some(JStr("Charon"))
    ensures VoiceName(voice) == "en-US-Wavenet-F" || VoiceName(voice) == "en-US-Wavenet-E"
  {
    assert "en-US-Wavenet-F" != "en-US-Wavenet-E" by {
      assert "en-US-Wavenet-F"[14] != "en-US-Wavenet-E"[14];
    }
  }

  /**
   * `!text || !text.trim()` (the batch) and `!text || text.trim().length === 0`
   * (`/api/tts`): Some(true) when the text is usable, Some(false) when the
   * request is refused, None when `trim` throws on a truthy non-string.
   */
  function TextUsable(text: Option<Json>): (r: Option<bool>)
    ensures r == Some(true) <==> text.Some? && text.value.JStr? && Trim(text.value.s) != []
    ensures r.None? <==> Truthy(text) && !text.value.JStr?
  {
    if !Truthy(text) then Some(false)
    else if text.value.JStr? then Some(Trim(text.value.s) != [])
    else None
  }
}
