/**
  The expert personas of persona.py: a dictionary literal from display name
  to system instruction. Every instruction opens with the shared base
  instruction; the analytic experts also carry the plotting instruction.
  The app lists the names in the dropdown and falls back to the Grandmaster
  for an unknown name.
 */
module Persona {
  import opened Strings
  import opened Options

  /** The base instruction shared by every persona. */
  const BaseInstruction: string :=
    "\n"
    + "[PRINSIP DASAR ENGINEX]:\n"
    + "1. **Identitas**: Anda adalah Konsultan Teknik Profesional (bukan sekadar AI).\n"
    + "2. **Satuan**: WAJIB menggunakan Satuan Metrik (Meter, Kg, Ton, Newton) kecuali diminta lain.\n"
    + "3. **Referensi**: Selalu merujuk pada Standar Nasional Indonesia (SNI), Permen PUPR, atau standar internasional (ASTM/AASHTO) jika SNI tidak tersedia.\n"
    + "4. **Keamanan**: Prioritaskan Safety Factor (SF) dalam setiap rekomendasi.\n"
    + "5. **Bahasa**: Gunakan Bahasa Indonesia teknis yang baku (EYD), namun luwes.\n"

  /** The plotting instruction appended to the analytic personas. */
  const PlotInstruction: string :=
    "\n"
    + "[INSTRUKSI KHUSUS LEVEL 3 - AGENTIC CODING]:\n"
    + "Jika pengguna meminta data yang melibatkan angka, perhitungan, kurva, atau grafik:\n"
    + "1. JANGAN HANYA MEMBERIKAN TEKS/PENJELASAN.\n"
    + "2. ANDA WAJIB MENULISKAN BLOK KODE PYTHON (```python ... ```).\n"
    + "3. Gunakan library berikut untuk visualisasi dan hitungan:\n"
    + "   - `import pandas as pd`\n"
    + "   - `import numpy as np`\n"
    + "   - `import matplotlib.pyplot as plt`\n"
    + "4. ATURAN GRAFIK:\n"
    + "   - Berikan Judul Grafik (`plt.title`).\n"
    + "   - Berikan Label Sumbu X dan Y (`plt.xlabel`, `plt.ylabel`).\n"
    + "   - Aktifkan Grid (`plt.grid(True)`).\n"
    + "   - Gunakan style `plt.style.use('ggplot')` atau sejenisnya agar estetik.\n"
    + "5. **SANGAT PENTING**: Akhiri setiap blok kode plotting dengan perintah:\n"
    + "   `st.pyplot(plt.gcf())`\n"
    + "   (Jangan gunakan `plt.show()`, karena ini berjalan di Streamlit).\n"

  /** The indentation that opens each line of an instruction literal. */
  const Indent := "\n        "

  /** One entry of `gems_persona`: its key, the text of its `PERAN:` line and
      whether it embeds the plotting instruction. The other lines of the
      instruction (focus and task lists) are not part of this model. */
  datatype Persona = Persona(name: string, role: string, plot: bool)

  /** The instruction text of an entry, laid out as its f-string is. */
  function Text(p: Persona): string {
    Layout(BaseInstruction, p.role, if p.plot then Indent + (PlotInstruction + "\n    ") else "\n    ")
  }

  /** An instruction literal: the base text, the role line, then `tail`. */
  function Layout(base: string, role: string, tail: string): string {
    Indent + (base + (Indent + "PERAN: " + role + tail))
  }

  const GrandmasterName := "👑 The GEMS Grandmaster"

  /** The dictionary literal, entries in source order. */
  const Table: seq<Persona> := [
    Persona("👑 The GEMS Grandmaster", "Direktur Utama Konsultan (Omniscient Project Director).", true),
    Persona("👔 Project Manager (PM)", "Senior Project Manager (Certified PMP).", true),
    Persona("⚖️ Ahli Legal & Kontrak", "Ahli Hukum Konstruksi & Administrasi Kontrak.", false),
    Persona("🕌 Dewan Syariah", "Ulama Fiqih Bangunan & Properti Syariah.", false),
    Persona("💰 Ahli Estimator (RAB)", "Senior Quantity Surveyor (QS).", true),
    Persona("💵 Ahli Keuangan Proyek", "Project Finance Specialist.", true),
    Persona("🌾 Ahli IKSI-PAI", "Ahli Irigasi & Audit Kinerja Sistem Irigasi.", true),
    Persona("🌊 Ahli Bangunan Air", "Hydraulic Structures Engineer.", true),
    Persona("🌧️ Ahli Hidrologi", "Senior Hydrologist.", true),
    Persona("🏖️ Ahli Teknik Pantai", "Coastal Engineer.", true),
    Persona("🏗️ Ahli Struktur (Gedung)", "Principal Structural Engineer.", true),
    Persona("🪨 Ahli Geoteknik", "Geotechnical Engineer.", true),
    Persona("🛣️ Ahli Jalan & Jembatan", "Highway & Bridge Engineer.", true),
    Persona("🌍 Ahli Geodesi & GIS", "Geomatics Engineer.", true),
    Persona("🏛️ Senior Architect", "Principal Architect (IAI).", false),
    Persona("🌳 Landscape Architect", "Landscape Architect.", false),
    Persona("🌍 Ahli Planologi", "Urban Planner (Perencana Wilayah & Kota).", false),
    Persona("📜 Ahli AMDAL", "Ahli Lingkungan (Ketua Tim AMDAL).", false),
    Persona("♻️ Ahli Teknik Lingkungan", "Sanitary Engineer.", true),
    Persona("⛑️ Ahli K3 Konstruksi", "Safety Manager (Ahli K3 Utama).", false),
    Persona("📝 Drafter Laporan DED", "Technical Writer & Document Controller.", false),
    Persona("🏭 Ahli Proses Industri", "Chemical & Process Engineer.", true),
    Persona("🎨 The Visionary Architect", "AI Visualizer & Prompt Engineer.", false),
    Persona("💻 Lead Engineering Developer", "Python & Streamlit Expert for Civil Engineering.", true),
    Persona("📐 CAD & BIM Automator", "BIM Manager & CAD Scripter.", false),
    Persona("🖥️ Instruktur Software", "Certified Engineering Software Trainer.", false),
    Persona("📜 Ahli Perizinan", "Konsultan Perizinan Bangunan Gedung (PBG/SLF).", false),
    Persona("🤖 The Enginex Architect", "System Admin & Guardian of ENGINEX.", false)]

  function Names(ps: seq<Persona>): (ns: seq<string>)
    ensures |ns| == |ps|
    ensures forall k :: 0 <= k < |ps| ==> ns[k] == ps[k].name
  {
    seq(|ps|, k requires 0 <= k < |ps| => ps[k].name)
  }

  /** The keys of a dictionary literal: each key once, at the place it first
      appears. */
  function Keys(ps: seq<Persona>): seq<string>
    decreases |ps|
  {
    if |ps| == 0 then []
    else
      var rest := Keys(ps[..|ps| - 1]);
      if ps[|ps| - 1].name in rest then rest else rest + [ps[|ps| - 1].name]
  }

  /** Looking a key up in a dictionary literal: a repeated key holds the
      value written last. */
  function Lookup(ps: seq<Persona>, name: string): Option<string>
    decreases |ps|
  {
    if |ps| == 0 then None
    else if ps[|ps| - 1].name == name then Some(Text(ps[|ps| - 1]))
    else Lookup(ps[..|ps| - 1], name)
  }

  /** `get_persona_list`: the dictionary's keys in order. */
  function GetPersonaList(): seq<string> {
    Keys(Table)
  }

  /** The Grandmaster's instruction, the fallback for unknown names. */
  const Fallback := Text(Table[0])

  /** `get_system_instruction`: the named persona's instruction, or the
      Grandmaster's for a name that is not a key. */
  function GetSystemInstruction(name: string): string {
    match Lookup(Table, name)
    case Some(t) => t
    case None => Fallback
  }

  // ----- properties -----

  predicate NoDuplicates(ns: seq<string>) {
    forall i, j :: 0 <= i < j < |ns| ==> ns[i] != ns[j]
  }

  /** No key of the literal is written twice. */
  lemma TableKeysDistinct()
    ensures NoDuplicates(Names(Table))
  {
    NamesDistinctA();
    NamesDistinctB();
    NamesDistinctC();
    NamesDistinctD();
  }

  /** The names of the entries before 4, from 4 to 8, from 9 to 14 and from
      15 on differ from the names of every later entry: four pieces of the
      distinctness proof, each small enough for the solver on its own. */
  lemma NamesDistinctA()
    ensures forall i, j :: 0 <= i < 4 && i < j < |Table| ==> Table[i].name != Table[j].name
  {
  }

  lemma NamesDistinctB()
    ensures forall i, j :: 4 <= i < 9 && i < j < |Table| ==> Table[i].name != Table[j].name
  {
  }

  lemma NamesDistinctC()
    ensures forall i, j :: 9 <= i < 15 && i < j < |Table| ==> Table[i].name != Table[j].name
  {
  }

  lemma NamesDistinctD()
    ensures forall i, j :: 15 <= i < |Table| && i < j < |Table| ==> Table[i].name != Table[j].name
  {
  }

  /** The keys are the entries' names, each once. */
  lemma {:induction false} KeysSpec(ps: seq<Persona>)
    ensures NoDuplicates(Keys(ps))
    ensures forall n :: n in Keys(ps) <==> n in Names(ps)
    decreases |ps|
  {
    if |ps| > 0 {
      var init := ps[..|ps| - 1];
      KeysSpec(init);
      assert Names(ps) == Names(init) + [ps[|ps| - 1].name];
    }
  }

  /** With no key repeated, the keys are exactly the names in order. */
  lemma {:induction false} KeysOfDistinct(ps: seq<Persona>)
    requires NoDuplicates(Names(ps))
    ensures Keys(ps) == Names(ps)
    decreases |ps|
  {
    if |ps| > 0 {
      var init := ps[..|ps| - 1];
      assert Names(init) == Names(ps)[..|ps| - 1];
      KeysOfDistinct(init);
      assert Names(ps) == Names(init) + [ps[|ps| - 1].name];
    }
  }

  /** A key is found exactly when some entry has it; with no key repeated,
      it is found with that entry's text. */
  lemma {:induction false} LookupSpec(ps: seq<Persona>, name: string)
    ensures Lookup(ps, name).Some? <==> name in Names(ps)
    ensures NoDuplicates(Names(ps)) ==>
      forall k :: 0 <= k < |ps| && ps[k].name == name ==> Lookup(ps, name) == Some(Text(ps[k]))
    decreases |ps|
  {
    if |ps| > 0 {
      var init := ps[..|ps| - 1];
      LookupSpec(init, name);
      assert Names(ps) == Names(init) + [ps[|ps| - 1].name];
      if NoDuplicates(Names(ps)) {
        assert Names(init) == Names(ps)[..|ps| - 1];
      }
    }
  }

  /** The dropdown lists the 28 personas in source order, each once, the
      Grandmaster first. */
  lemma PersonaListSpec()
    ensures GetPersonaList() == Names(Table)
    ensures |GetPersonaList()| == 28 && NoDuplicates(GetPersonaList())
    ensures GetPersonaList()[0] == GrandmasterName
  {
    TableKeysDistinct();
    KeysOfDistinct(Table);
  }

  /** A listed name gets its own instruction; any other name gets the
      Grandmaster's, which is the dictionary's entry for that key. */
  lemma SystemInstructionSpec(name: string)
    ensures Lookup(Table, GrandmasterName) == Some(Fallback)
    ensures forall k :: 0 <= k < |Table| && Table[k].name == name ==> GetSystemInstruction(name) == Text(Table[k])
    ensures name !in GetPersonaList() ==> GetSystemInstruction(name) == GetSystemInstruction(GrandmasterName)
  {
    TableKeysDistinct();
    PersonaListSpec();
    LookupSpec(Table, name);
    LookupSpec(Table, GrandmasterName);
  }

  /** A laid-out instruction contains its base text and its tail. */
  lemma LayoutContains(base: string, role: string, tail: string, sub: string)
    requires sub == base || Contains(tail, sub)
    ensures Contains(Layout(base, role, tail), sub)
  {
    var line := Indent + "PERAN: " + role;
    if sub == base {
      assert StartsWith(base + (line + tail), sub);
      ContainsOfPrefix(base + (line + tail), sub);
      ContainsAppend(Indent, base + (line + tail), sub);
    } else {
      ContainsAppend(Indent + (base + line), tail, sub);
      assert Indent + (base + line) + tail == Layout(base, role, tail);
    }
  }

  /** Every instruction opens with the base instruction and so contains it;
      the analytic personas contain the plotting instruction as well. */
  lemma InstructionEmbedsBase(p: Persona)
    ensures Contains(Text(p), BaseInstruction)
    ensures p.plot ==> Contains(Text(p), PlotInstruction)
  {
    var tail := if p.plot then Indent + (PlotInstruction + "\n    ") else "\n    ";
    LayoutContains(BaseInstruction, p.role, tail, BaseInstruction);
    if p.plot {
      assert Contains(tail, PlotInstruction) by {
        ContainsOfPrefix(PlotInstruction + "\n    ", PlotInstruction);
        ContainsAppend(Indent, PlotInstruction + "\n    ", PlotInstruction);
      }
      LayoutContains(BaseInstruction, p.role, tail, PlotInstruction);
    }
  }

  /** Whatever a lookup finds is some entry's text. */
  lemma {:induction false} LookupHasBase(ps: seq<Persona>, name: string)
    ensures Lookup(ps, name).Some? ==> Contains(Lookup(ps, name).value, BaseInstruction)
    decreases |ps|
  {
    if |ps| > 0 {
      if ps[|ps| - 1].name == name {
        InstructionEmbedsBase(ps[|ps| - 1]);
      } else {
        LookupHasBase(ps[..|ps| - 1], name);
      }
    }
  }

  /** Whatever name the app passes, the instruction it gets embeds the base
      instruction. */
  lemma SystemInstructionHasBase(name: string)
    ensures Contains(GetSystemInstruction(name), BaseInstruction)
  {
    LookupHasBase(Table, name);
    InstructionEmbedsBase(Table[0]);
  }
}
