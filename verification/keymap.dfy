/** The key-translation table of the renderer-batcher adapter: one integer map
    from engine key codes to toolkit key codes, holding the special keys at
    their own codes and the qualifier masks shifted up by `QAL_VAL`. */
module KeyMap {
  import opened Common

  /** Offset that moves qualifier masks out of the range of ordinary key codes,
      so that both kinds of entry can share one table. */
  const QAL_VAL: int := 0x6000_0000

  /** The toolkit's code for "no special key" and "no modifier". */
  const TB_KEY_UNDEFINED: int := 0

  /** The engine keys the table translates. */
  datatype HostKey =
    | KeyUp | KeyDown | KeyLeft | KeyRight | KeyPageUp | KeyPageDown | KeyHome | KeyEnd
    | KeyTab | KeyBackspace | KeyInsert | KeyDelete | KeyReturn | KeyEscape
    | KeyF1 | KeyF2 | KeyF3 | KeyF4 | KeyF5 | KeyF6
    | KeyF7 | KeyF8 | KeyF9 | KeyF10 | KeyF11 | KeyF12

  /** The toolkit's special keys. */
  datatype TbSpecial =
    | TbUp | TbDown | TbLeft | TbRight | TbPageUp | TbPageDown | TbHome | TbEnd
    | TbTab | TbBackspace | TbInsert | TbDelete | TbEnter | TbEsc
    | TbF1 | TbF2 | TbF3 | TbF4 | TbF5 | TbF6
    | TbF7 | TbF8 | TbF9 | TbF10 | TbF11 | TbF12

  /** The engine's qualifier masks and the toolkit's modifier keys. */
  datatype HostQualifier = QualShift | QualCtrl | QualAlt | QualAny
  datatype TbModifier = TbShift | TbCtrl | TbAlt | TbSuper

  /** The numeric values of the engine's and the toolkit's named constants,
      which this model leaves open. */
  datatype Codes = Codes(
    key: HostKey -> Int32,
    special: TbSpecial -> int,
    qual: HostQualifier -> Int32,
    modifier: TbModifier -> int)

  /** What the table's design relies on: distinct special keys below `QAL_VAL`,
      distinct non-zero qualifier masks small enough that adding `QAL_VAL`
      does not overflow, and no special key translating to "undefined". */
  ghost predicate Valid(c: Codes) {
    && (forall a: HostKey, b: HostKey :: a != b ==> c.key(a) != c.key(b))
    && (forall a: HostKey :: 0 <= c.key(a) < QAL_VAL)
    && (forall p: HostQualifier, q: HostQualifier :: p != q ==> c.qual(p) != c.qual(q))
    && (forall p: HostQualifier :: 0 < c.qual(p) < 0x2000_0000)
    && (forall t: TbSpecial :: c.special(t) != TB_KEY_UNDEFINED)
  }

  /** The toolkit key each engine key is paired with. */
  function Counterpart(k: HostKey): TbSpecial {
    match k
    case KeyUp => TbUp
    case KeyDown => TbDown
    case KeyLeft => TbLeft
    case KeyRight => TbRight
    case KeyPageUp => TbPageUp
    case KeyPageDown => TbPageDown
    case KeyHome => TbHome
    case KeyEnd => TbEnd
    case KeyTab => TbTab
    case KeyBackspace => TbBackspace
    case KeyInsert => TbInsert
    case KeyDelete => TbDelete
    case KeyReturn => TbEnter
    case KeyEscape => TbEsc
    case KeyF1 => TbF1
    case KeyF2 => TbF2
    case KeyF3 => TbF3
    case KeyF4 => TbF4
    case KeyF5 => TbF5
    case KeyF6 => TbF6
    case KeyF7 => TbF7
    case KeyF8 => TbF8
    case KeyF9 => TbF9
    case KeyF10 => TbF10
    case KeyF11 => TbF11
    case KeyF12 => TbF12
  }

  /** The modifier each qualifier mask is paired with. */
  function ModifierFor(q: HostQualifier): TbModifier {
    match q
    case QualShift => TbShift
    case QualCtrl => TbCtrl
    case QualAlt => TbAlt
    case QualAny => TbSuper
  }

  const SPECIAL_COUNT: nat := 26
  const QUALIFIER_COUNT: nat := 4

  /** The special keys in the order the table is filled. */
  function KeyAt(i: nat): HostKey
    requires i < SPECIAL_COUNT
  {
    match i
    case 0 => KeyUp
    case 1 => KeyDown
    case 2 => KeyLeft
    case 3 => KeyRight
    case 4 => KeyPageUp
    case 5 => KeyPageDown
    case 6 => KeyHome
    case 7 => KeyEnd
    case 8 => KeyTab
    case 9 => KeyBackspace
    case 10 => KeyInsert
    case 11 => KeyDelete
    case 12 => KeyReturn
    case 13 => KeyEscape
    case 14 => KeyF1
    case 15 => KeyF2
    case 16 => KeyF3
    case 17 => KeyF4
    case 18 => KeyF5
    case 19 => KeyF6
    case 20 => KeyF7
    case 21 => KeyF8
    case 22 => KeyF9
    case 23 => KeyF10
    case 24 => KeyF11
    case _ => KeyF12
  }

  /** The position of a special key in the filling order. */
  function KeyRank(k: HostKey): (i: nat)
    ensures i < SPECIAL_COUNT && KeyAt(i) == k
  {
    match k
    case KeyUp => 0
    case KeyDown => 1
    case KeyLeft => 2
    case KeyRight => 3
    case KeyPageUp => 4
    case KeyPageDown => 5
    case KeyHome => 6
    case KeyEnd => 7
    case KeyTab => 8
    case KeyBackspace => 9
    case KeyInsert => 10
    case KeyDelete => 11
    case KeyReturn => 12
    case KeyEscape => 13
    case KeyF1 => 14
    case KeyF2 => 15
    case KeyF3 => 16
    case KeyF4 => 17
    case KeyF5 => 18
    case KeyF6 => 19
    case KeyF7 => 20
    case KeyF8 => 21
    case KeyF9 => 22
    case KeyF10 => 23
    case KeyF11 => 24
    case KeyF12 => 25
  }

  /** The qualifiers in the order the table is filled. */
  function QualAt(i: nat): HostQualifier
    requires i < QUALIFIER_COUNT
  {
    match i
    case 0 => QualShift
    case 1 => QualCtrl
    case 2 => QualAlt
    case _ => QualAny
  }

  function QualRank(q: HostQualifier): (i: nat)
    ensures i < QUALIFIER_COUNT && QualAt(i) == q
  {
    match q
    case QualShift => 0
    case QualCtrl => 1
    case QualAlt => 2
    case QualAny => 3
  }

  /** Every special key is filled exactly once. */
  lemma KeyAtInjective(i: nat, j: nat)
    requires i < SPECIAL_COUNT && j < SPECIAL_COUNT && i != j
    ensures KeyAt(i) != KeyAt(j)
  {
    assert KeyRank(KeyAt(i)) == i;
  }

  lemma QualAtInjective(i: nat, j: nat)
    requires i < QUALIFIER_COUNT && j < QUALIFIER_COUNT && i != j
    ensures QualAt(i) != QualAt(j)
  {
    assert QualRank(QualAt(i)) == i;
  }

  /** The table key under which a qualifier mask is stored and looked up:
      the mask plus `QAL_VAL`, in the 32-bit `int` arithmetic of the engine. */
  function QualifierKey(mask: Int32): (k: Int32)
    ensures 0 <= mask < 0x2000_0000 ==> QAL_VAL <= k && k == mask + QAL_VAL
  {
    Wrap32(mask + QAL_VAL)
  }

  /** The set of keys an insertion sequence writes. */
  function KeysOf(es: seq<(int, int)>): set<int> {
    if |es| == 0 then {} else {es[0].0} + KeysOf(es[1..])
  }

  lemma {:induction false} KeysOfMembers(es: seq<(int, int)>, k: int)
    ensures k in KeysOf(es) <==> exists i :: 0 <= i < |es| && es[i].0 == k
  {
    if |es| > 0 {
      KeysOfMembers(es[1..], k);
      if k in KeysOf(es[1..]) {
        var i :| 0 <= i < |es[1..]| && es[1..][i].0 == k;
        assert es[i + 1].0 == k;
      }
      if exists i :: 0 <= i < |es| && es[i].0 == k {
        var i :| 0 <= i < |es| && es[i].0 == k;
        if i > 0 {
          assert es[1..][i - 1].0 == k;
        }
      }
    }
  }

  /** Inserting pairs one after the other, a later insertion of the same key
      replacing the earlier value. */
  function InsertAll(m: map<int, int>, es: seq<(int, int)>): (r: map<int, int>)
    decreases |es|
    ensures r.Keys == m.Keys + KeysOf(es)
    ensures forall k :: k in m && k !in KeysOf(es) ==> r[k] == m[k]
  {
    if |es| == 0 then m else InsertAll(m[es[0].0 := es[0].1], es[1..])
  }

  ghost predicate DistinctKeys(es: seq<(int, int)>) {
    forall i, j :: 0 <= i < j < |es| ==> es[i].0 != es[j].0
  }

  /** With no key inserted twice, every inserted key ends up with the value
      inserted for it. */
  lemma {:induction false} InsertAllFinds(m: map<int, int>, es: seq<(int, int)>, i: nat)
    requires DistinctKeys(es)
    requires i < |es|
    decreases |es|
    ensures es[i].0 in InsertAll(m, es) && InsertAll(m, es)[es[i].0] == es[i].1
  {
    var m' := m[es[0].0 := es[0].1];
    if i == 0 {
      KeysOfMembers(es[1..], es[0].0);
      assert es[0].0 !in KeysOf(es[1..]);
    } else {
      assert es[1..][i - 1] == es[i];
      InsertAllFinds(m', es[1..], i - 1);
    }
  }

  function SpecialEntries(c: Codes): (es: seq<(int, int)>)
    ensures |es| == SPECIAL_COUNT
  {
    seq(SPECIAL_COUNT, i requires 0 <= i < SPECIAL_COUNT =>
      (c.key(KeyAt(i)) as int, c.special(Counterpart(KeyAt(i)))))
  }

  function QualifierEntries(c: Codes): (es: seq<(int, int)>)
    ensures |es| == QUALIFIER_COUNT
  {
    seq(QUALIFIER_COUNT, i requires 0 <= i < QUALIFIER_COUNT =>
      (QualifierKey(c.qual(QualAt(i))) as int, c.modifier(ModifierFor(QualAt(i)))))
  }

  /** All insertions, special keys first, then the shifted qualifiers. */
  function Entries(c: Codes): seq<(int, int)> {
    SpecialEntries(c) + QualifierEntries(c)
  }

  /** The table as filled at start-up, beginning from an empty map. */
  function CreateKeyMap(c: Codes): (m: map<int, int>)
    ensures m.Keys == KeysOf(Entries(c))
  {
    InsertAll(map[], Entries(c))
  }

  /** The toolkit code stored for `k`, or "undefined" for a key not in the table. */
  function FindTBKey(m: map<int, int>, k: int): (r: int)
    ensures k in m ==> r == m[k]
    ensures k !in m ==> r == TB_KEY_UNDEFINED
  {
    if k in m then m[k] else TB_KEY_UNDEFINED
  }

  /** Where each insertion of the table comes from. */
  lemma EntryKeys(c: Codes)
    ensures |Entries(c)| == SPECIAL_COUNT + QUALIFIER_COUNT
    ensures forall i :: 0 <= i < SPECIAL_COUNT ==>
      Entries(c)[i] == (c.key(KeyAt(i)) as int, c.special(Counterpart(KeyAt(i))))
    ensures forall i :: SPECIAL_COUNT <= i < SPECIAL_COUNT + QUALIFIER_COUNT ==>
      Entries(c)[i] == (QualifierKey(c.qual(QualAt(i - SPECIAL_COUNT))) as int,
                        c.modifier(ModifierFor(QualAt(i - SPECIAL_COUNT))))
  {
  }

  lemma EntriesDistinct(c: Codes)
    requires Valid(c)
    ensures DistinctKeys(Entries(c))
  {
    var es := Entries(c);
    EntryKeys(c);
    forall i, j | 0 <= i < j < |es|
      ensures es[i].0 != es[j].0
    {
      if j < SPECIAL_COUNT {
        KeyAtInjective(i, j);
      } else if SPECIAL_COUNT <= i {
        QualAtInjective(i - SPECIAL_COUNT, j - SPECIAL_COUNT);
      }
    }
  }

  /** A table entry below `QAL_VAL` is a special key. */
  lemma LowEntryIsSpecial(c: Codes, k: int)
    requires Valid(c)
    requires k in CreateKeyMap(c) && k < QAL_VAL
    ensures exists h :: c.key(h) == k
  {
    var es := Entries(c);
    EntryKeys(c);
    KeysOfMembers(es, k);
    var i :| 0 <= i < |es| && es[i].0 == k;
    if i < SPECIAL_COUNT {
      assert c.key(KeyAt(i)) == k;
    }
  }

  /** A table entry at or above `QAL_VAL` is a shifted qualifier mask. */
  lemma HighEntryIsQualifier(c: Codes, k: int)
    requires Valid(c)
    requires k in CreateKeyMap(c) && QAL_VAL <= k
    ensures exists q :: QualifierKey(c.qual(q)) == k
  {
    var es := Entries(c);
    EntryKeys(c);
    KeysOfMembers(es, k);
    var i :| 0 <= i < |es| && es[i].0 == k;
    if SPECIAL_COUNT <= i {
      assert QualifierKey(c.qual(QualAt(i - SPECIAL_COUNT))) == k;
    }
  }

  /** After the table is built, every special engine key translates to its
      toolkit counterpart (for instance Return to Enter, Escape to Esc). */
  lemma SpecialKeysTranslate(c: Codes, h: HostKey)
    requires Valid(c)
    ensures FindTBKey(CreateKeyMap(c), c.key(h)) == c.special(Counterpart(h))
  {
    EntriesDistinct(c);
    var i := KeyRank(h);
    assert Entries(c)[i] == (c.key(h) as int, c.special(Counterpart(h)));
    InsertAllFinds(map[], Entries(c), i);
  }

  /** Each of the four single qualifier masks, shifted by `QAL_VAL`, translates
      to its modifier. */
  lemma QualifiersTranslate(c: Codes, q: HostQualifier)
    requires Valid(c)
    ensures FindTBKey(CreateKeyMap(c), QualifierKey(c.qual(q))) == c.modifier(ModifierFor(q))
  {
    EntriesDistinct(c);
    var i := SPECIAL_COUNT + QualRank(q);
    assert Entries(c)[i] == (QualifierKey(c.qual(q)) as int, c.modifier(ModifierFor(q)));
    InsertAllFinds(map[], Entries(c), i);
  }

  /** Among ordinary key codes (below `QAL_VAL`), exactly the special keys
      translate to something other than "undefined". */
  lemma SpecialLookupIff(c: Codes, k: int)
    requires Valid(c)
    requires 0 <= k < QAL_VAL
    ensures FindTBKey(CreateKeyMap(c), k) != TB_KEY_UNDEFINED <==> exists h :: c.key(h) == k
  {
    if k in CreateKeyMap(c) {
      LowEntryIsSpecial(c, k);
    }
    if exists h :: c.key(h) == k {
      var h :| c.key(h) == k;
      SpecialKeysTranslate(c, h);
    }
  }

  /** A qualifier mask looked up through `QAL_VAL` yields its modifier when it
      is one of the four single masks, and "undefined" for every other mask,
      combinations included. */
  lemma QualifierLookup(c: Codes, mask: Int32)
    requires Valid(c)
    requires 0 <= mask < 0x2000_0000
    ensures forall q :: c.qual(q) == mask ==>
      FindTBKey(CreateKeyMap(c), QualifierKey(mask)) == c.modifier(ModifierFor(q))
    ensures (forall q :: c.qual(q) != mask) ==>
      FindTBKey(CreateKeyMap(c), QualifierKey(mask)) == TB_KEY_UNDEFINED
  {
    forall q | c.qual(q) == mask
      ensures FindTBKey(CreateKeyMap(c), QualifierKey(mask)) == c.modifier(ModifierFor(q))
    {
      QualifiersTranslate(c, q);
    }
    if QualifierKey(mask) in CreateKeyMap(c) {
      HighEntryIsQualifier(c, QualifierKey(mask));
      var q :| QualifierKey(c.qual(q)) == QualifierKey(mask);
      assert c.qual(q) == mask;
    }
  }

  /** Shifted qualifier keys never collide with a special key. */
  lemma QualifierRangeDisjoint(c: Codes, mask: Int32, h: HostKey)
    requires Valid(c)
    requires 0 <= mask < 0x2000_0000
    ensures QualifierKey(mask) != c.key(h)
  {
  }
}
