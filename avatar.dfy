/**
 * The client's avatar lookup: a profile's avatar id, whatever its type,
 * picks a file of the fixed avatar list by wrapping the id around the
 * list's length, and becomes the relative path of that file.
 */
module Avatar {
  import opened Common

  /** The value handed to `get_avatar_path`: an int, a string, or None. */
  datatype AvatarId = IntId(n: int) | TextId(s: string) | NoId

  /** The avatar files under assets/avatar, in their fixed order. */
  const AvatarFilenames: seq<string> := [
    "icons8_alien_96px.png",
    "icons8_angry_face_meme_96px.png",
    "icons8_animation_96px.png",
    "icons8_avatar_96px.png",
    "icons8_bad_piggies_96px.png",
    "icons8_bendy_96px.png",
    "icons8_captain_america_96px.png",
    "icons8_crash_bandicoot_96px.png",
    "icons8_deadpool_96px.png",
    "icons8_elektrovieh_96px.png",
    "icons8_gandalf_96px.png",
    "icons8_ghost_96px.png",
    "icons8_groot_96px.png",
    "icons8_hinata_96px.png",
    "icons8_hulk_96px.png",
    "icons8_ignore_96px.png",
    "icons8_iron_man_96px.png",
    "icons8_jake_96px.png",
    "icons8_jetpack_joyride_96px.png",
    "icons8_joker_dc_96px.png",
    "icons8_logan_x_men_96px.png",
    "icons8_magneto_96px.png",
    "icons8_minecraft_main_character_96px.png",
    "icons8_minecraft_skeleton_96px.png",
    "icons8_minecraft_zombie_96px.png",
    "icons8_morpheus_96px.png",
    "icons8_naruto_96px.png",
    "icons8_neo_96px.png",
    "icons8_orc_96px.png",
    "icons8_pelican_96px.png",
    "icons8_pennywise_96px.png",
    "icons8_pikachu_pokemon_96px.png",
    "icons8_rick_sanchez_96px.png",
    "icons8_sailor_moon_96px.png",
    "icons8_sasuke_uchiha_96px.png",
    "icons8_sonic_the_hedgehog_96px.png",
    "icons8_spider-man_head_96px.png",
    "icons8_steven_universe_96px.png",
    "icons8_super_mario_96px.png",
    "icons8_the_flash_head_96px.png",
    "icons8_transformer_96px.png",
    "icons8_trinity_96px.png",
    "icons8_venom_head_96px.png",
    "icons8_vietnam_96px.png",
    "icons8_year_of_rooster_96px.png",
    "icons8_saitama_96px.png",
    "icons8_trollface_96px.png"
  ]

  /** The directory every avatar path starts with: `os.path.join("assets", "avatar")`. */
  const AvatarDir: string := "assets/avatar"

  /** The value of a non-empty string of decimal digits. */
  function DigitsValue(s: string): (v: nat)
    requires AllDigits(s)
  {
    if s == [] then 0 else 10 * DigitsValue(s[..|s| - 1]) + (s[|s| - 1] as int - '0' as int)
  }

  predicate AllDigits(s: string) {
    forall k :: 0 <= k < |s| ==> '0' <= s[k] <= '9'
  }

  /**
   * Python's `int(s)` for a string: surrounding whitespace is dropped, then
   * an optional sign and at least one decimal digit must make up the rest;
   * anything else raises ValueError, here None.
   */
  function ParseInt(s: string): (r: Option<int>)
    ensures r.Some? ==> Strip(s) != ""
  {
    ReadInt(Strip(s))
  }

  /** An optional sign followed by at least one decimal digit, and nothing else. */
  function ReadInt(t: string): Option<int> {
    var signed := t != [] && (t[0] == '-' || t[0] == '+');
    var digits := if signed then t[1..] else t;
    if digits == [] || !AllDigits(digits) then None
    else
      var v: int := DigitsValue(digits);
      Some(if signed && t[0] == '-' then -v else v)
  }

  /** `int(index)`, with 0 in place of the ValueError or TypeError it can raise. */
  function ToIndex(id: AvatarId): int {
    match id
    case IntId(n) => n
    case TextId(s) => if ParseInt(s).Some? then ParseInt(s).value else 0
    case NoId => 0
  }

  /**
   * `get_avatar_path(index)` over a list of file names: the name at position
   * `int(index) % len(names)` joined under assets/avatar, or "" when the list
   * is empty.
   */
  function AvatarPath(names: seq<string>, id: AvatarId): (p: string)
    ensures names == [] <==> p == ""
    ensures names != [] ==>
      && |p| > |AvatarDir| && p[..|AvatarDir| + 1] == AvatarDir + "/"
      && p[|AvatarDir| + 1..] in names
  {
    if names == [] then ""
    else
      var f := names[ToIndex(id) % |names|];
      var p := AvatarDir + "/" + f;
      assert p[|AvatarDir| + 1..] == f;
      p
  }

  /** `get_avatar_path(index)` over the fixed avatar list: always a file of the list, under assets/avatar. */
  function GetAvatarPath(id: AvatarId): (p: string)
    ensures |p| > |AvatarDir| && p[..|AvatarDir| + 1] == AvatarDir + "/"
    ensures p[|AvatarDir| + 1..] in AvatarFilenames
  {
    AvatarPath(AvatarFilenames, id)
  }

  /** The fixed list has 47 names. */
  lemma AvatarCount()
    ensures |AvatarFilenames| == 47
  {
  }

  /** A positive multiple of d is at least d. */
  lemma {:induction false} AtLeastDivisor(x: int, d: int)
    requires x >= 1 && d > 0
    ensures x * d >= d
    decreases x
  {
    if x > 1 {
      AtLeastDivisor(x - 1, d);
      assert x * d == (x - 1) * d + d;
    }
  }

  /** The remainder of m by d is r whenever m is q times d plus an r in [0, d). */
  lemma ModUnique(m: int, d: int, q: int, r: int)
    requires d > 0 && 0 <= r < d && m == q * d + r
    ensures m % d == r
  {
    var q0, r0 := m / d, m % d;
    assert m == q0 * d + r0;
    assert (q - q0) * d == q * d - q0 * d;
    if q > q0 {
      AtLeastDivisor(q - q0, d);
      assert false;
    } else if q < q0 {
      AtLeastDivisor(q0 - q, d);
      assert false;
    }
  }

  /** An index inside the list picks the name at that position. */
  lemma InRangeIndexIsKept(names: seq<string>, n: int)
    requires 0 <= n < |names|
    ensures AvatarPath(names, IntId(n)) == AvatarDir + "/" + names[n]
  {
    ModUnique(n, |names|, 0, n);
  }

  /** Indices that differ by a multiple of the length of the list pick the same avatar. */
  lemma IndexWrapsAround(names: seq<string>, n: int, k: int)
    requires names != []
    ensures AvatarPath(names, IntId(n + k * |names|)) == AvatarPath(names, IntId(n))
  {
    var d := |names|;
    var q, r := n / d, n % d;
    assert n + k * d == (q + k) * d + r;
    ModUnique(n + k * d, d, q + k, r);
  }

  /** A negative index counts from the end of the list: -1 is the last avatar, -len the first. */
  lemma NegativeIndexFromEnd(names: seq<string>, j: int)
    requires 1 <= j <= |names|
    ensures AvatarPath(names, IntId(-j)) == AvatarDir + "/" + names[|names| - j]
  {
    ModUnique(-j, |names|, -1, |names| - j);
  }

  /** None, and a string that is not an integer, both fall back to the first avatar. */
  lemma UnreadableIdIsFirst(names: seq<string>, s: string)
    requires names != [] && ParseInt(s).None?
    ensures AvatarPath(names, TextId(s)) == AvatarPath(names, NoId) == AvatarDir + "/" + names[0]
  {
    ModUnique(0, |names|, 0, 0);
  }

  /** The decimal digits of n read back as n. */
  lemma {:induction false} DigitsValueOfNatToString(n: nat)
    ensures AllDigits(NatToString(n)) && DigitsValue(NatToString(n)) == n
  {
    var s := NatToString(n);
    if n < 10 {
      assert s == [DigitChar(n)];
      assert s[..0] == [];
    } else {
      DigitsValueOfNatToString(n / 10);
      assert s[..|s| - 1] == NatToString(n / 10);
      assert s[|s| - 1] == DigitChar(n % 10);
      assert DigitsValue(s) == 10 * (n / 10) + n % 10;
    }
  }

  /** `str(n)` has no surrounding whitespace. */
  lemma StripIntToString(n: int)
    ensures Strip(IntToString(n)) == IntToString(n)
  {
    var s := IntToString(n);
    assert !IsSpace(s[0]) && !IsSpace(s[|s| - 1]);
    assert TextStart(s, 0) == 0;
    assert TextEnd(s, 0, |s|) == |s|;
  }

  /** `int(str(n)) == n` for every integer n. */
  lemma ParseIntOfIntToString(n: int)
    ensures ParseInt(IntToString(n)) == Some(n)
  {
    StripIntToString(n);
    ReadIntOfIntToString(n);
  }

  /** The text of `str(n)` reads back as n. */
  lemma ReadIntOfIntToString(n: int)
    ensures ReadInt(IntToString(n)) == Some(n)
  {
    var m: nat := if n < 0 then -n else n;
    var d := NatToString(m);
    DigitsValueOfNatToString(m);
    if n < 0 {
      var t := "-" + d;
      assert t == IntToString(n);
      assert t[1..] == d;
    } else {
      assert d == IntToString(n);
      assert '0' <= d[0] <= '9';
    }
  }

  /** A stored id written out with `str` reads back as the same id, so it picks the same avatar. */
  lemma TextIdRoundTrip(names: seq<string>, n: int)
    ensures ToIndex(TextId(IntToString(n))) == n
    ensures AvatarPath(names, TextId(IntToString(n))) == AvatarPath(names, IntId(n))
  {
    ParseIntOfIntToString(n);
  }
}
