/** DataStore entry keys: a template with a placeholder for the user id. */
module EntryKeys {
  import opened Text

  const PLACEHOLDER: string := "{user_id}"

  /** `template.replace("{user_id}", rid)`. */
  function EntryKey(template: string, rid: string): string {
    ReplaceAll(template, PLACEHOLDER, rid)
  }

  /** Longer ids make longer keys; with a placeholder, strictly. */
  lemma {:induction false} KeyLengthFollowsIdLength(template: string, a: string, b: string)
    ensures |a| == |b| ==> |EntryKey(template, a)| == |EntryKey(template, b)|
    ensures |a| < |b| ==> |EntryKey(template, a)| <= |EntryKey(template, b)|
    ensures |a| < |b| && Contains(template, PLACEHOLDER) ==> |EntryKey(template, a)| < |EntryKey(template, b)|
    decreases |template|
  {
    match Find(template, PLACEHOLDER)
    case None =>
    case Some(i) => KeyLengthFollowsIdLength(template[i + |PLACEHOLDER|..], a, b);
  }

  /** With the placeholder, different users read different entries. */
  lemma KeysDoNotCollide(template: string, a: string, b: string)
    requires Contains(template, PLACEHOLDER)
    requires EntryKey(template, a) == EntryKey(template, b)
    ensures a == b
  {
    KeyLengthFollowsIdLength(template, a, b);
    KeyLengthFollowsIdLength(template, b, a);
    var i := Find(template, PLACEHOLDER).value;
    var key := EntryKey(template, a);
    assert key[i..i + |a|] == a;
    assert EntryKey(template, b)[i..i + |b|] == b;
  }

  /** The check the handler makes is the exact one. */
  lemma TemplateIsInjectiveIffItHasThePlaceholder(template: string)
    ensures (forall a, b | EntryKey(template, a) == EntryKey(template, b) :: a == b)
       <==> Contains(template, PLACEHOLDER)
  {
    if Contains(template, PLACEHOLDER) {
      forall a, b | EntryKey(template, a) == EntryKey(template, b) ensures a == b {
        KeysDoNotCollide(template, a, b);
      }
    } else {
      assert Find(template, PLACEHOLDER).None?;
      assert EntryKey(template, "1") == EntryKey(template, "2");
    }
  }

  /** The bare placeholder is the default template: the key is the id itself. */
  lemma DefaultTemplate(rid: string)
    ensures Contains(PLACEHOLDER, PLACEHOLDER) && EntryKey(PLACEHOLDER, rid) == rid
  {
    assert OccursAt(PLACEHOLDER, PLACEHOLDER, 0);
    FindUnique(PLACEHOLDER, PLACEHOLDER, 0);
    assert EntryKey("", rid) == "";
    assert PLACEHOLDER[|PLACEHOLDER|..] == "";
    assert PLACEHOLDER[..0] + rid + "" == rid;
  }

  /** The text before the first placeholder stays, the id takes the place of the
      placeholder, and the rest follows in the same way. */
  lemma KeyAroundTheId(before: string, rest: string, rid: string)
    requires forall i: nat | i < |before| :: !OccursAt(before + "{user_id}" + rest, "{user_id}", i)
    ensures EntryKey(before + "{user_id}" + rest, rid) == before + rid + EntryKey(rest, rid)
  {
    var template := before + "{user_id}" + rest;
    assert OccursAt(template, "{user_id}", |before|);
    FindUnique(template, "{user_id}", |before|);
    assert template[..|before|] == before && template[|before| + 9..] == rest;
  }

  /** A text without the placeholder stays as it is. */
  lemma KeyWithoutPlaceholder(text: string, rid: string)
    requires forall i: nat :: !OccursAt(text, "{user_id}", i)
    ensures EntryKey(text, rid) == text
  {
  }

  lemma PlaceholderStartsWithBrace(s: string, i: nat)
    requires OccursAt(s, "{user_id}", i)
    ensures s[i] == '{'
  {
    assert s[i..i + 9][0] == '{';
  }

  /** So a plain template gives prefix, id, suffix. */
  lemma KeyOfPlainTemplate(before: string, after: string, rid: string)
    requires '{' !in before && '{' !in after
    ensures EntryKey(before + "{user_id}" + after, rid) == before + rid + after
  {
    var template := before + "{user_id}" + after;
    forall i: nat | i < |before| ensures !OccursAt(template, "{user_id}", i) {
      assert template[i] == before[i];
      if OccursAt(template, "{user_id}", i) { PlaceholderStartsWithBrace(template, i); }
    }
    forall i: nat ensures !OccursAt(after, "{user_id}", i) {
      if OccursAt(after, "{user_id}", i) { PlaceholderStartsWithBrace(after, i); }
    }
    KeyAroundTheId(before, after, rid);
    KeyWithoutPlaceholder(after, rid);
  }
}
