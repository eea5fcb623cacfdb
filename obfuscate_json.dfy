/**
 * Masking of secrets in a parsed JSON object.
 *
 * A string value whose key looks sensitive has every word or whitespace
 * character replaced by `X`; nested objects are masked recursively; every
 * other value is copied. The result is a new value: Dafny datatypes are
 * immutable, so the input cannot be changed.
 */
module ObfuscateJson {
  import opened Text

  /** A parsed JSON value. An object is its sequence of (key, value) members
      in insertion order, as a Python dict iterates them. */
  datatype Json =
    | Obj(members: seq<(string, Json)>)
    | Str(text: string)
    | Num(number: real)
    | Bool(truth: bool)
    | Null
    | Arr(items: seq<Json>)

  /** The result of obfuscating a top-level value: only an object has
      `items()`, anything else is refused. */
  datatype Outcome = Obfuscated(data: Json) | NotAMapping

  /** Key fragments that mark a value as secret. */
  const SensitiveKeys: seq<string> :=
    ["apiKey", "api_key", "private_key", "privateKey", "password", "secret", "token", "authToken"]

  /** A key is sensitive when, ignoring case, it contains one of the
      sensitive fragments. */
  predicate IsSensitive(key: string)
  {
    exists j | 0 <= j < |SensitiveKeys| :: Contains(Lower(key), Lower(SensitiveKeys[j]))
  }

  /** A key is sensitive exactly when, both lower-cased, one of the
      sensitive fragments occurs at some position of the key. */
  lemma SensitiveIff(key: string)
    ensures IsSensitive(key) <==>
            exists j, i: nat :: 0 <= j < |SensitiveKeys| && OccursAt(Lower(key), Lower(SensitiveKeys[j]), i)
  {
    forall j | 0 <= j < |SensitiveKeys|
      ensures Contains(Lower(key), Lower(SensitiveKeys[j])) <==> exists i: nat :: OccursAt(Lower(key), Lower(SensitiveKeys[j]), i)
    {
      ContainsIff(Lower(key), Lower(SensitiveKeys[j]));
    }
  }

  /** The regular-expression class `\w`, ASCII: letters, digits, `_`. */
  predicate IsWordChar(c: char)
  {
    'a' <= c <= 'z' || 'A' <= c <= 'Z' || '0' <= c <= '9' || c == '_'
  }

  /** The regular-expression class `\s` of a `str` pattern, restricted to
      ASCII: the characters `str.isspace()` accepts there, which are space,
      tab, line feed, vertical tab, form feed, carriage return and the four
      information separators 0x1C to 0x1F. */
  predicate IsSpaceChar(c: char)
  {
    c == ' ' || '\t' <= c <= '\r' || '\U{1C}' <= c <= '\U{1F}'
  }

  /** One character of `re.sub(r'[\w\s]', 'X', s)`. */
  function MaskChar(c: char): char
  {
    if IsWordChar(c) || IsSpaceChar(c) then 'X' else c
  }

  /** `re.sub(r'[\w\s]', 'X', s)`: every word or whitespace character
      becomes `X`, every other character stays where it was. */
  function Mask(s: string): (r: string)
    ensures |r| == |s|
    ensures forall i :: 0 <= i < |s| && (IsWordChar(s[i]) || IsSpaceChar(s[i])) ==> r[i] == 'X'
    ensures forall i :: 0 <= i < |s| && !IsWordChar(s[i]) && !IsSpaceChar(s[i]) ==> r[i] == s[i]
  {
    seq(|s|, i requires 0 <= i < |s| => MaskChar(s[i]))
  }

  /** Masking a masked string changes nothing: `X` is itself a word
      character and the characters left alone are left alone again. */
  lemma MaskIdempotent(s: string)
    ensures Mask(Mask(s)) == Mask(s)
  {
  }

  /** The value stored under `key` in the obfuscated object. */
  function ObfuscateValue(key: string, value: Json): Json
    decreases value, 1
  {
    match value
    case Obj(members) => Obj(ObfuscateMembers(members))
    case Str(text) => if IsSensitive(key) then Str(Mask(text)) else value
    case _ => value
  }

  /** The obfuscated members of an object, in the original order. */
  function ObfuscateMembers(members: seq<(string, Json)>): (r: seq<(string, Json)>)
    ensures |r| == |members|
    decreases members, 0
  {
    if |members| == 0 then []
    else
      var last := members[|members| - 1];
      assert last in members && last.1 < last;
      ObfuscateMembers(members[..|members| - 1]) + [(last.0, ObfuscateValue(last.0, last.1))]
  }

  /** The obfuscation of a top-level value. */
  function Obfuscate(data: Json): Outcome
  {
    if data.Obj? then Obfuscated(Obj(ObfuscateMembers(data.members))) else NotAMapping
  }

  /** Masks the secrets of a JSON object into a fresh one, member by
      member. */
  method ObfuscateSensitiveData(data: Json) returns (result: Outcome)
    ensures result == Obfuscate(data)
    ensures data.Obj? <==> result.Obfuscated?
    decreases data
  {
    if !data.Obj? {
      return NotAMapping;
    }
    var items := data.members;
    var obfuscated: seq<(string, Json)> := [];
    for i := 0 to |items|
      invariant obfuscated == ObfuscateMembers(items[..i])
    {
      var (key, value) := items[i];
      assert items[..i + 1][..i] == items[..i];
      if value.Obj? {
        assert items[i] in items;
        var nested := ObfuscateSensitiveData(value);
        obfuscated := obfuscated + [(key, nested.data)];
      } else if value.Str? && IsSensitive(key) {
        obfuscated := obfuscated + [(key, Str(Mask(value.text)))];
      } else {
        obfuscated := obfuscated + [(key, value)];
      }
    }
    assert items[..|items|] == items;
    return Obfuscated(Obj(obfuscated));
  }

  /** The keys of an object's members, in order. */
  function Keys(members: seq<(string, Json)>): seq<string>
  {
    if |members| == 0 then [] else Keys(members[..|members| - 1]) + [members[|members| - 1].0]
  }

  /** Member `i` of the output keeps the key of member `i` of the input; a
      nested object becomes its obfuscated version; a string is masked
      exactly when its key is sensitive; numbers, booleans, null and
      arrays (with whatever objects they hold) are copied unchanged. */
  lemma {:induction false} ObfuscatedMember(members: seq<(string, Json)>, i: nat)
    requires i < |members|
    ensures |ObfuscateMembers(members)| == |members|
    ensures ObfuscateMembers(members)[i].0 == members[i].0
    ensures var (key, value) := members[i];
            var out := ObfuscateMembers(members)[i].1;
            && (value.Obj? ==> out == Obj(ObfuscateMembers(value.members)))
            && (value.Str? && IsSensitive(key) ==> out == Str(Mask(value.text)))
            && (value.Str? && !IsSensitive(key) ==> out == value)
            && (!value.Obj? && !value.Str? ==> out == value)
    decreases |members|
  {
    var init := members[..|members| - 1];
    if i < |members| - 1 {
      ObfuscatedMember(init, i);
    } else if |init| > 0 {
      ObfuscatedMember(init, 0);
    }
  }

  /** The output object has exactly the input's keys, in the same order. */
  lemma {:induction false} KeysPreserved(members: seq<(string, Json)>)
    ensures Keys(ObfuscateMembers(members)) == Keys(members)
    decreases |members|
  {
    if |members| > 0 {
      var init := members[..|members| - 1];
      KeysPreserved(init);
      var out := ObfuscateMembers(members);
      if |init| > 0 {
        ObfuscatedMember(init, 0);
      }
      assert out[..|out| - 1] == ObfuscateMembers(init);
    }
  }

  /** Obfuscating an obfuscated object changes nothing more. */
  lemma {:induction false} ObfuscateMembersIdempotent(members: seq<(string, Json)>)
    ensures ObfuscateMembers(ObfuscateMembers(members)) == ObfuscateMembers(members)
    decreases members, 0
  {
    if |members| > 0 {
      var init := members[..|members| - 1];
      var last := members[|members| - 1];
      var (key, value) := last;
      assert last in members && last.1 < last;
      var out := ObfuscateMembers(members);
      ObfuscateMembersIdempotent(init);
      ObfuscateValueIdempotent(key, value);
      if |init| > 0 {
        ObfuscatedMember(init, 0);
      }
      assert out[..|out| - 1] == ObfuscateMembers(init);
    }
  }

  lemma {:induction false} ObfuscateValueIdempotent(key: string, value: Json)
    ensures ObfuscateValue(key, ObfuscateValue(key, value)) == ObfuscateValue(key, value)
    decreases value, 1
  {
    match value {
      case Obj(members) => ObfuscateMembersIdempotent(members);
      case Str(text) => MaskIdempotent(text);
      case _ =>
    }
  }

  /** Obfuscation is idempotent on every input, refused inputs included. */
  lemma ObfuscateIdempotent(data: Json)
    ensures Obfuscate(data).Obfuscated? ==> Obfuscate(Obfuscate(data).data) == Obfuscate(data)
  {
    if data.Obj? {
      ObfuscateMembersIdempotent(data.members);
    }
  }

  /** Every character is the mask `X` or a character masking keeps. */
  predicate Unrevealing(s: string)
  {
    forall c :: c in s ==> c == 'X' || (!IsWordChar(c) && !IsSpaceChar(c))
  }

  /** Only `X`s and punctuation survive masking. */
  lemma MaskHides(s: string)
    ensures Unrevealing(Mask(s))
  {
    forall c | c in Mask(s) ensures c == 'X' || (!IsWordChar(c) && !IsSpaceChar(c)) {
      var i :| 0 <= i < |Mask(s)| && Mask(s)[i] == c;
    }
  }

  /** No string under a sensitive key, in this object or any object nested
      in it, holds a word or whitespace character other than the mask
      `X`. Objects inside arrays are not looked at. */
  predicate Sanitized(members: seq<(string, Json)>)
    decreases members
  {
    forall i :: 0 <= i < |members| ==>
      (members[i].1.Str? && IsSensitive(members[i].0) ==> Unrevealing(members[i].1.text)) &&
      (members[i].1.Obj? ==> (assert members[i] in members && members[i].1 < members[i]; Sanitized(members[i].1.members)))
  }

  /** After obfuscation every secret string, at any depth of object
      nesting, is down to `X`s and punctuation. */
  lemma {:induction false} ObfuscatedIsSanitized(members: seq<(string, Json)>)
    ensures Sanitized(ObfuscateMembers(members))
    decreases members
  {
    var out := ObfuscateMembers(members);
    forall i | 0 <= i < |out|
      ensures out[i].1.Str? && IsSensitive(out[i].0) ==> Unrevealing(out[i].1.text)
      ensures out[i].1.Obj? ==> Sanitized(out[i].1.members)
    {
      ObfuscatedMember(members, i);
      var (key, value) := members[i];
      if value.Obj? {
        assert members[i] in members && members[i].1 < members[i];
        ObfuscatedIsSanitized(value.members);
      } else if value.Str? && IsSensitive(key) {
        MaskHides(value.text);
      }
    }
  }

  /** Keys are matched without regard to case. */
  lemma SensitiveIgnoresCase()
    ensures IsSensitive("GitHub_Token")
  {
    var key := "GitHub_Token";
    assert Lower(key)[7..12] == "token";
    assert Lower(SensitiveKeys[6]) == "token";
    ContainsComplete(Lower(key), "token", 7);
  }

  /** A plain name is not sensitive: every fragment is longer than it. */
  lemma NameNotSensitive()
    ensures !IsSensitive("name")
  {
    forall j | 0 <= j < |SensitiveKeys| ensures !Contains(Lower("name"), Lower(SensitiveKeys[j])) {
      NotContainsLonger(Lower("name"), Lower(SensitiveKeys[j]));
    }
  }

  /** The masking of `p@ss-word!`: letters become `X`, `@`, `-` and `!` stay. */
  lemma MaskExample()
    ensures Mask("p@ss-word!") == "X@XX-XXXX!"
  {
    var s, t := "p@ss-word!", "X@XX-XXXX!";
    forall i | 0 <= i < |s| ensures Mask(s)[i] == t[i] {
    }
  }

  /** `abc123` is all word characters, so it is masked completely. */
  lemma MaskAllWordChars()
    ensures Mask("abc123") == "XXXXXX"
  {
    var s := "abc123";
    forall i | 0 <= i < |s| ensures Mask(s)[i] == 'X' {
    }
  }

  lemma ApiKeySensitive()
    ensures IsSensitive("api_key")
  {
    assert Lower(SensitiveKeys[1]) == "api_key";
    assert Lower("api_key") == "api_key";
  }

  /** An API key is masked and a plain name is kept. */
  lemma ObfuscateExample()
    ensures Obfuscate(Obj([("api_key", Str("abc123")), ("name", Str("ok"))]))
         == Obfuscated(Obj([("api_key", Str("XXXXXX")), ("name", Str("ok"))]))
  {
    ApiKeySensitive();
    NameNotSensitive();
    MaskAllWordChars();
    var members := [("api_key", Str("abc123")), ("name", Str("ok"))];
    ObfuscatedMember(members, 0);
    ObfuscatedMember(members, 1);
    var out := ObfuscateMembers(members);
    assert out[0] == ("api_key", Str("XXXXXX"));
    assert out[1] == ("name", Str("ok"));
    assert out == [("api_key", Str("XXXXXX")), ("name", Str("ok"))];
  }
}
