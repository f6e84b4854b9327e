# Pulgas, modelled in Dafny

Pulgas is a small Java game. Fleas (`Pulga`) of two kinds live on an 800 x 600 field (`Campo`):

- a normal flea is 40 x 40;
- a mutant flea is 50 x 50.

The player has two weapons:

- the pistol (`Pulguipium`) hits the first flea, in list order, whose box contains the clicked point;
- the missile (`Pulgoson`) hits `max(1, n / 2)` fleas, chosen from a shuffled copy of the list.

A hit kills a normal flea. A hit on a mutant replaces it with a normal flea at the same spot.

The session (`Juego`) works as follows:

- it counts kills as score;
- it starts when a flea is added;
- it ends when a shot leaves the field empty;
- on ending, a better score is saved as the best one.

The score counter (`Puntaje`) counts points one by one and saves its maximum whenever it is passed.

The project models that game logic.

- `pulgas.dfy` (module `Pulgas`): the flea. It is a class with a mutable position, a fixed size and a fixed kind. The module also holds:
  - the box tests (strict overlap, inclusive hit test);
  - the random jump;
  - the impact rule.
- `campo.dfy` (module `Campos`): the field. It is a class holding the list of fleas. It has:
  - collision-checked insertion;
  - the two random spawns with 50 attempts;
  - the jump pass, both as written and corrected;
  - removal by identity, clearing and counting.

  Value-level functions say which attempt of a spawn succeeds (`PrimerHueco`) and where every flea ends up after the jump pass (`Pasada`). The methods are proved against them.
- `impactos.dfy` (module `Impactos`): the hit step both weapons share. It also has a description of the list a series of hits leaves:
  - `Resto` entries, one per position (`Encaja`);
  - `Esperado` for a multiset of hit fleas, processed left to right.
- `pulguipium.dfy`, `pulgoson.dfy`: the two weapons. Each is a method on the list value, returning the new list and the kills.
- `persistencia.dfy` (module `Persistencia`): the score file. It is reduced to a cell that holds the parsed number, or nothing when parsing fails. Reading falls back to 0.
- `puntaje.dfy` (module `Puntajes`): the score counter.
- `juego.dfy` (module `Juegos`): the session, as a class owning the field and the store.
- `opcion.dfy`: the `Option` type.

Randomness is an input:

- A call that uses `java.util.Random` receives a draw stream `s: nat -> nat`. The k-th `nextInt(bound)` of that call is `s(k) % bound`, so every possible outcome of the generator is some stream.
- `Collections.shuffle` is replaced by the shuffled copy itself (`mezcla`), which must be a permutation of the list.

The store holds whatever `int` the file parses to, negatives included.

## Model

| member | source | states |
|---|---|---|
| Pulgas.SiguienteEntero | src/autonoma/Pulgas/modelos/Pulga.java:63-64 | `Random.nextInt(bound)` stands for draw k of the stream and lies in `[0, bound)` |
| Pulgas.SolapaSiCompartenCelda | src/autonoma/Pulgas/modelos/Pulga.java:51-54 | for boxes of positive size, `colisiona` holds exactly when the two boxes share a unit cell: the overlap is strict on both axes |
| Pulgas.SolapaSimetrica | src/autonoma/Pulgas/modelos/Pulga.java:51-54 | `a.colisiona(b) == b.colisiona(a)` |
| Pulgas.SolapaConsigo | src/autonoma/Pulgas/modelos/Pulga.java:51-54 | a box of positive width and height collides with itself |
| Pulgas.BordeCompartido | src/autonoma/Pulgas/modelos/Pulga.java:99-102 | two boxes that only share an edge do not collide, yet a point of that edge is a hit on both (inclusive hit test, strict overlap) |
| Pulgas.EsquinaLejana | src/autonoma/Pulgas/modelos/Pulga.java:99-102 | `contienePunto` includes the far corner `(x + ancho, y + alto)` and excludes one unit past it on either axis |
| Pulgas.Pulga.Colisiona | src/autonoma/Pulgas/modelos/Pulga.java:51-54 | `colisiona` is the strict overlap of the two boxes; it is mutual, and a flea of positive size collides with itself |
| Pulgas.Pulga.ContienePunto | src/autonoma/Pulgas/modelos/Pulga.java:99-102 | the inclusive hit test: for a box of positive size, a point is a hit exactly when it is a corner of a unit cell of the box |
| Pulgas.TrasImpacto | src/autonoma/Pulgas/modelos/PulgaMutante.java:43-45 | the impact rule shared with `PulgaNormal.impactar`: only a normal flea dies; a survivor becomes a normal flea, strictly smaller on both axes |
| Pulgas.ImpactosHastaMorir | src/autonoma/Pulgas/modelos/PulgaMutante.java:43-45 | one impact kills a normal flea; a mutant becomes a normal flea, so it dies at exactly the second impact |
| Pulgas.DegradadaMasPequena | src/autonoma/Pulgas/modelos/PulgaMutante.java:43-45 | the normal flea a mutant degrades into is strictly smaller on both axes |
| Pulgas.Pulga.Normal | src/autonoma/Pulgas/modelos/PulgaNormal.java:33-35 | a new normal flea stores the given x and y, with size 40 x 40 |
| Pulgas.Pulga.Mutante | src/autonoma/Pulgas/modelos/PulgaMutante.java:32-34 | a new mutant flea stores the given x and y, with size 50 x 50 |
| Pulgas.Pulga.Saltar | src/autonoma/Pulgas/modelos/Pulga.java:62-65 | needs a field wider and taller than the flea; x and y become draws k and k + 1, with `0 <= x < maxX - ancho` and `0 <= y < maxY - alto`, so the box lies inside the field; size and kind are constants |
| Pulgas.Pulga.Impactar | src/autonoma/Pulgas/modelos/PulgaMutante.java:43-45 | returns null exactly for a normal flea; a mutant gives a fresh normal flea at its own x and y; nothing of the flea itself is modified |
| Pulgas.IndiceDe | src/autonoma/Pulgas/modelos/Pulgoson.java:39 | `indexOf` by identity: -1 exactly when the object is absent, otherwise a position holding it with no earlier occurrence |
| Campos.CajaSorteada | src/autonoma/Pulgas/modelos/Campo.java:65-68 | the box built from two draws keeps the flea's size and lies inside the field: `0 <= x < W - w`, `0 <= y < H - h` |
| Campos.SinSolapesAlAgregar | src/autonoma/Pulgas/modelos/Campo.java:45-54 | appending a box that collides with no listed box keeps a collision-free list collision-free |
| Campos.SinSolapesAlMover | src/autonoma/Pulgas/modelos/Campo.java:116-133 | moving one box to a place where it collides with no other box keeps a collision-free list collision-free |
| Campos.PrimerHueco | src/autonoma/Pulgas/modelos/Campo.java:64-74 | the first spawn attempt from i on whose box collides with nothing, or 50: every attempt before it collides, and it does not |
| Campos.PrimerHuecoUnico | src/autonoma/Pulgas/modelos/Campo.java:64-74 | an attempt r is the one taken exactly when all attempts before it collide and r itself does not (or r is 50) |
| Campos.Reintentos | src/autonoma/Pulgas/modelos/Campo.java:116-133 | the retries of the throwaway flea use at most two draws each |
| Campos.SaltoDe | src/autonoma/Pulgas/modelos/Campo.java:112-134 | the turn of one flea keeps the number of boxes and their jumpability, and uses at least its first two draws |
| Campos.TrasIntento | src/autonoma/Pulgas/modelos/Campo.java:116-133 | one attempt of a flea's turn, as written: the first moves the listed flea, later ones the throwaway; the listed boxes are then those of the turn, and the draws used match the turn's |
| Campos.PasadaDentroDelCampo | src/autonoma/Pulgas/modelos/Campo.java:110-136 | after the pass as written, the fleas before k are untouched; every flea from k on keeps its size and has the box of exactly one pair of draws, inside the field |
| Campos.SaltoRompeSeparacion | src/autonoma/Pulgas/modelos/Campo.java:130 | two fleas that were apart overlap after the pass as written, for a concrete stream of draws |
| Campos.CajasSaltables | src/autonoma/Pulgas/modelos/Campo.java:122 | fleas of the two classes that are smaller than the field can all jump in it |
| Campos.Campo.constructor | src/autonoma/Pulgas/modelos/Campo.java:32-37 | the given size, and an empty list |
| Campos.Campo.AgregarPulga | src/autonoma/Pulgas/modelos/Campo.java:45-54 | adds the flea exactly when it collides with no listed flea, appending it at the end; otherwise the list is unchanged; the field bounds are not checked; a collision-free list stays collision-free |
| Campos.Campo.AgregarPulgaNormal | src/autonoma/Pulgas/modelos/Campo.java:61-75 | true exactly when one of the 50 attempts fits; then one normal flea with the box of the first such attempt is appended (inside the field); on false the list is unchanged; collision-freedom is kept |
| Campos.Campo.AgregarPulgaMutante | src/autonoma/Pulgas/modelos/Campo.java:82-96 | the same for a 50 x 50 mutant flea |
| Campos.Campo.ChocaConOtra | src/autonoma/Pulgas/modelos/Campo.java:125-133 | the inner scan finds a collision exactly when the flea overlaps a listed flea other than itself |
| Campos.Campo.SaltarYProbar | src/autonoma/Pulgas/modelos/Campo.java:121-133 | one jump and scan: the flea gets the box of draws u and u + 1, only that flea's box changes, and the result is the collision test against the others |
| Campos.Campo.Intento | src/autonoma/Pulgas/modelos/Campo.java:117-132 | the body of the retry loop: jump and scan as above; on a collision the loop variable becomes a new normal flea at the saved position, and nothing listed changes |
| Campos.Campo.SaltarUna | src/autonoma/Pulgas/modelos/Campo.java:112-134 | the turn of flea k leaves the boxes and the draw cursor that `SaltoDe` gives |
| Campos.Campo.HacerSaltarPulgas | src/autonoma/Pulgas/modelos/Campo.java:110-136 | as written: the list keeps its fleas, order and classes, and the boxes become those of `Pasada` (so each flea jumps exactly once and ends inside the field, and fleas may end up overlapping) |
| Campos.Campo.ReubicarUna | src/autonoma/Pulgas/modelos/Campo.java:112-134 | the corrected turn of flea k: only its box changes; the box is either the old one or a jump inside the field; collision-freedom is kept |
| Campos.Campo.HacerSaltarPulgasCorregido | src/autonoma/Pulgas/modelos/Campo.java:110-136 | the corrected pass: same fleas in the same order; collision-freedom is kept; every flea either stays put or lands inside the field |
| Campos.Campo.EliminarPulga | src/autonoma/Pulgas/modelos/Campo.java:154-156 | removes the first occurrence of the flea by identity and keeps the order of the rest; with the flea absent the list is unchanged; afterwards the flea is absent |
| Campos.Campo.PulgasRestantes | src/autonoma/Pulgas/modelos/Campo.java:163-165 | the number of fleas is 0 exactly when the list is empty |
| Campos.Campo.LimpiarCampo | src/autonoma/Pulgas/modelos/Campo.java:163-172 | the list is empty and `pulgasRestantes` is 0 |
| Impactos.Intactas | src/autonoma/Pulgas/modelos/Pulguipium.java:38 | the description of an untouched list keeps each flea at its position |
| Impactos.EncajaIntactas | src/autonoma/Pulgas/modelos/Pulguipium.java:38 | a list fits the untouched description of L exactly when it is L |
| Impactos.PrimerIgual | src/autonoma/Pulgas/modelos/Pulgoson.java:39 | the first position that still keeps a given flea, or the length: no earlier position keeps it |
| Impactos.EsperadoSinObjetivos | src/autonoma/Pulgas/modelos/Pulgoson.java:37-53 | with no fleas hit, the list is untouched |
| Impactos.EsperadoConserva | src/autonoma/Pulgas/modelos/Pulgoson.java:37-53 | a flea that was not a target stays in the list |
| Impactos.EsperadoPaso | src/autonoma/Pulgas/modelos/Pulgoson.java:38-51 | hitting one more target (one still available in the list) finds it at the first position that keeps it, and the impact there gives the description with that target added |
| Impactos.EncajaIndice | src/autonoma/Pulgas/modelos/Pulgoson.java:39 | in a list that fits a description, `indexOf` of an original flea is the first position the description keeps it at, or -1 |
| Impactos.EncajaQuitar | src/autonoma/Pulgas/modelos/Pulgoson.java:46 | `remove(i)` on a described list removes entry i of the description |
| Impactos.EncajaPoner | src/autonoma/Pulgas/modelos/Pulgoson.java:50 | `set(i, q)` with the degraded flea q gives the description with a new normal flea at i |
| Impactos.DistintasQuitar | src/autonoma/Pulgas/modelos/Pulgoson.java:46 | removing a position keeps a list free of repeated fleas |
| Impactos.DistintasPoner | src/autonoma/Pulgas/modelos/Pulgoson.java:50 | writing a flea that was not listed keeps a list free of repeated fleas |
| Impactos.EncajaProcedencia | src/autonoma/Pulgas/modelos/Pulgoson.java:42-51 | every flea of a list after the hits is an original flea or a new normal flea of the right size |
| Impactos.ImpactarEn | src/autonoma/Pulgas/modelos/Pulguipium.java:26-34 | impact at position i: a normal flea is removed (one kill); a mutant is replaced in place by a normal flea at its position (no kill); the length drops by the kills |
| Pulguipium.PrimeraEnPunto | src/autonoma/Pulgas/modelos/Pulguipium.java:22-24 | the first position whose flea contains the point, or the length: no earlier flea contains it |
| Pulguipium.PrimeraEnPuntoUnica | src/autonoma/Pulgas/modelos/Pulguipium.java:22-24 | that first position is unique |
| Pulguipium.Bajas | src/autonoma/Pulgas/modelos/Pulguipium.java:27-38 | the kills of a shot are 0 or 1, and 1 exactly when the first flea containing the point is a normal flea |
| Pulguipium.Atacar | src/autonoma/Pulgas/modelos/Pulguipium.java:20-39 | only the first flea containing the point is hit: a normal flea is removed (returns 1); a mutant is replaced in place (returns 0); the others keep their order; no such flea means the list is unchanged and 0 is returned; the final length is the initial one minus the result |
| Pulgoson.NumeroAtaques | src/autonoma/Pulgas/modelos/Pulgoson.java:27 | exactly `Math.max(1, n / 2)`: at least 1 and at least `n / 2`, and equal to one of them |
| Pulgoson.Objetivos | src/autonoma/Pulgas/modelos/Pulgoson.java:27-37 | the targets are a prefix of the shuffled copy, of length `min(max(1, n / 2), n)` as the loop bound `i < numeroAtaques && i < pulgasCopia.size()` gives |
| Pulgoson.AtacarBlanco | src/autonoma/Pulgas/modelos/Pulgoson.java:38-51 | one turn of the attack loop: the list moves from the description with the targets so far hit to the one with the next target hit too; a kill exactly when that target is a normal flea, and then the list is one shorter; no flea ends up listed twice |
| Pulgoson.ObjetivosCuantos | src/autonoma/Pulgas/modelos/Pulgoson.java:27-37 | on a list of n >= 1 fleas exactly `max(1, n / 2)` targets are taken, at most half of them when n >= 2; none on an empty list |
| Pulgoson.Normales | src/autonoma/Pulgas/modelos/Pulgoson.java:44-47 | the number of normal fleas is at most the length |
| Pulgoson.SinPulgas | src/autonoma/Pulgas/modelos/Pulgoson.java:23-25 | an empty list has no targets and nothing to change |
| Pulgoson.BlancoEncontrado | src/autonoma/Pulgas/modelos/Pulgoson.java:39-51 | every target is still found by `indexOf`; the skip branch is never taken; hitting it there is the next step of `Esperado` |
| Pulgoson.PrefijoSiguiente | src/autonoma/Pulgas/modelos/Pulgoson.java:37-38 | taking the next target of the shuffled copy adds it to the targets so far, which stay within the list |
| Pulgoson.Atacar | src/autonoma/Pulgas/modelos/Pulgoson.java:22-56 | an empty list returns 0, unchanged; otherwise the targets are the first `max(1, n / 2)` fleas of the shuffled copy, and the result is the list with them hit in turn (each at its first occurrence). Kills are the normal targets, at most the targets; mutants are replaced in place; untargeted fleas stay in their order; the final length is the initial one minus the kills |
| Persistencia.Almacen.constructor | PersisteciaScore.java:25-38 | a missing file is created holding 0; an existing file is left as it is |
| Persistencia.Almacen.Guardar | PersisteciaScore.java:45-51 | the file is overwritten with the number, and a later load gives it back |
| Persistencia.Almacen.Cargar | PersisteciaScore.java:58-68 | the stored number, or 0 when the file holds none that parses |
| Puntajes.Puntaje.constructor | src/autonoma/Pulgas/modelos/Puntaje.java:16-20 | `actual` is 0, and `maximo` is the stored number (0 when it cannot be read) |
| Puntajes.Puntaje.Aumentar | src/autonoma/Pulgas/modelos/Puntaje.java:22-28 | `actual` grows by exactly 1; `maximo` becomes `max(maximo, actual)`, so it never decreases and `maximo >= actual`; it is saved exactly when `actual` has just passed the old maximum, and otherwise the store is untouched |
| Juegos.Juego.constructor | src/autonoma/Pulgas/modelos/Juego.java:23-31 | an empty 800 x 600 field, score 0, inactive, and the best score loaded from the store |
| Juegos.Juego.Iniciar | src/autonoma/Pulgas/modelos/Juego.java:37-42 | the game becomes active; the scores are untouched |
| Juegos.Juego.Reiniciar | src/autonoma/Pulgas/modelos/Juego.java:47-64 | empty field, score 0, best score equal to the stored one, active; the store is untouched, so a second call in a row reaches the same state |
| Juegos.Juego.Finalizar | src/autonoma/Pulgas/modelos/Juego.java:69-81 | the game becomes inactive; a score strictly above the best replaces it and is saved; otherwise neither the best score nor the store changes |
| Juegos.Juego.VerificarFinJuego | src/autonoma/Pulgas/modelos/Juego.java:150-154 | an active game with no flea left is ended through `finalizar`; any other game is untouched |
| Juegos.Juego.ActualizarPuntaje | src/autonoma/Pulgas/modelos/Juego.java:161-163 | the score grows by exactly the points |
| Juegos.Juego.DispararPistola | src/autonoma/Pulgas/modelos/Juego.java:89-97 | a no-op when inactive; otherwise the field becomes what the pistol leaves, the score grows by exactly its kills, and the game ends when the field is left empty |
| Juegos.Juego.DispararMisil | src/autonoma/Pulgas/modelos/Juego.java:102-110 | the same for the missile, with its targets taken from the shuffled copy |
| Juegos.Juego.AgregarPulgaNormal | src/autonoma/Pulgas/modelos/Juego.java:117-123 | an inactive game is started first; the field then gets the outcome of a normal spawn; the scores are untouched |
| Juegos.Juego.AgregarPulgaMutante | src/autonoma/Pulgas/modelos/Juego.java:130-136 | the same for a mutant spawn |
| Juegos.Juego.HacerSaltarPulgas | src/autonoma/Pulgas/modelos/Juego.java:141-145 | a no-op when inactive; otherwise the field's jump pass as written (`Pasada`): the same fleas in the same order, each of which can jump in the 800 x 600 field |

## Left out

- The Swing window, panel, painting and images (`dibujar`, the `ImageIcon` blocks, `Puntaje.dibujar`, `main`) are not modelled. They hold no game logic.
- The flea generator thread (`GeneradorPulgas`) is not modelled. Its start and stop in `iniciar`, `reiniciar` and `finalizar` are treated as no-ops. Its only effect on the game is to call `agregarPulgaNormal` and `agregarPulgaMutante`, which are modelled.
- Concurrency between the generator and the user interface on the shared list is not modelled. Every operation is atomic and sequential.
- File input and output are abstracted: a store is a cell holding the parsed number, or nothing.
  - How a line parses (`Integer.parseInt`, with or without `trim`, an empty line) is an input of the model: `Presente(legible)`.
  - Error messages on the console are not modelled.
  - A file that cannot be created keeps reading as 0, as in the model.
- `Puntaje` reads and writes its own file. It is modelled over its own store.
- `java.util.Random` and `Collections.shuffle` are inputs (a draw stream and a shuffled permutation of the list), not generators.
- `Arma`, the weapon interface, has no value in the model. Each shot method of the game names its weapon, as `dispararPistola` and `dispararMisil` do.
- `Pulgoson.Atacar` does not take the unused point (x, y).
- The weapons are handed the field's own list by reference in the program. In the model they take the list as a value and return the new one, which the game writes back to the field.
- The abstract `Pulga` constructor is only reached through the two concrete classes, so a flea always has the size of its class (`Dimensionada`). The getters are the fields themselves.
- Every model operation on the field requires `Valid` (no flea listed twice, every flea sized by its class). This holds for every field the program builds, because `agregarPulga` refuses a flea that is already listed: that flea would collide with itself.
- Campos.Campo.AgregarPulgaNormal: requires a field wider and taller than 40. A smaller field would make `Random.nextInt` throw; that exception is not modelled.
- Campos.Campo.AgregarPulgaMutante: requires a field wider and taller than 50, for the same reason.
- Campos.Campo.HacerSaltarPulgas: requires every flea to be smaller than the field, for the same reason.
- Juegos.Juego.ActualizarPuntaje: the score is an unbounded integer. The wrap-around of Java's 32-bit `int` is not modelled, because a score would need more than 2^31 kills to reach it.
- Puntajes.Puntaje.Aumentar: `actual` and `maximo` are unbounded integers, for the same reason.

## Findings

| source | as written | input that shows it | evidently intended | confidence | as-written member | corrected member |
|---|---|---|---|---|---|---|
| src/autonoma/Pulgas/modelos/Campo.java:130 | when a jump lands on another flea, the "restore" rebinds only the loop variable, to a new normal flea at the saved position. The listed flea keeps the colliding position, and later retries move only the throwaway flea | field 800 x 600; two 40 x 40 fleas at (0, 0) and (100, 100); draws 200, 200, 210, 210, 500, 500. The first flea jumps to (200, 200). The second jumps to (210, 210), collides and stays there; the retry moves only the throwaway flea, to (500, 500). The two listed fleas now overlap | put the listed flea back where it was and retry it, so that a pass that starts with fleas apart ends with them apart and every flea is either unmoved or inside the field | not executed; the counterexample is proved | Campos.SaltoRompeSeparacion | Campos.Campo.HacerSaltarPulgasCorregido |
