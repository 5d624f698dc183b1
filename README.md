# Personal library manager — Dafny model of the core

This project models the core of a small C personal-library manager:

- the book record `Livro` and its truncating constructor `criar_livro`;
- the book collection `ColecaoLivros`, a singly linked list of record copies with a node counter, where new records go at the head;
- the history stack `PilhaHistorico` of consulted ISBNs;
- the wish queue, in both of its revisions:
  - `fila_desejos.c` keeps a counter and returns a status, writing through an out-pointer;
  - `fila_desejo.c` keeps no counter and returns records by value, with a `"VAZIO"` ISBN sentinel;
- title search and the two sorted displays (by title and by year);
- the text and binary persistence codecs.

The linked structures are real heap objects in the model:

- Each structure is a Dafny `class` whose fields are the C struct's pointers and counter.
- Nodes are objects of a generic class `Nos.No<T>`, with a payload and a `proximo` pointer.
- A ghost node sequence and a ghost payload sequence are tied to the pointers by `Nos.Cadeia`, a NULL-terminated, acyclic chain.
- Each class's `Valid()` also states the counter invariant (`quantidade == |livros|`) and, for the queues, that `fim` is the last node.
- Every method is proved against the payload sequence: what it returns and what the new sequence is.
- Lemmas state the properties of those sequence functions: first-match lookup and removal, LIFO and FIFO order, sorted permutation, and the codec round trips.

## Modelling choices

- A C pointer that may be NULL is a nullable class reference (`ColecaoLivros?`) or an `Option` (strings and out-pointers).
- Whether `malloc` succeeds is a `bool` parameter `alocou`: false takes the C failure path.
- Whether `fopen` succeeds is a parameter too:
  - for writing, the `bool` `abriu`;
  - for reading, the file's contents are `None` when it cannot be opened.
- A file is its contents: a `string` for the text format, a `seq<Byte>` for the binary format.
- C strings are the characters before the NUL; a C `char` is a code 1..255 (`CStrings.CString`).
- `strcmp` is its sign (-1/0/1) and `strstr` the first matching position, as section 7.24 of C11 specifies them.
- `qsort` is represented by an insertion sort (`PesquisaOrdenacao.OrdenarPor`). Callers are only told that its result is a sorted permutation, since C11 section 7.22.5.2 leaves tie order unspecified.
- The binary block is the struct layout on an ABI with a 4-byte little-endian two's-complement `int` and no padding: 100 + 100 + 4 + 14 + 50 = 268 bytes, with string fields NUL-padded.
- The text line is exactly `"t","a",y,"i","g"\n`. `fgets` is modelled as cutting 511-character buffers or up to a newline. `sscanf` is modelled directive by directive, including `%99[^"]` needing at least one character and `%d` skipping leading white space.
- Where a header and the code disagree, or a header leaves a choice open, the model follows the code:
  - `pesquisa_ordenacao.h:12-15` allows the sorts to modify the list or only display a sorted copy; `pesquisa_ordenacao.c:80-85` only displays, so the list is not reordered.
  - The author sort is commented out at `pesquisa_ordenacao.h:17` and has no definition, so there is none.
  - `lista_livros.h:42-52` declares `adicionar_livro_colecao` as returning `int` 1 or 0; `lista_livros.c:38` defines it returning `void`, so it returns nothing.
  - `arquivos.h:41-43` and `arquivos.h:78-79` allow a load from a missing file to return 1 or 0; `arquivos.c:63-66` returns 0.
- `qsort` is not stable (section 7.22.5.2 of C11), so tie order of the sorted displays is left open.
- A text round trip does not give back a record with an empty or over-long field, a `"` in a field, or a newline anywhere except as the last character of the genre. The save writes such a record's line as it is, and the load's `fgets` pieces and `sscanf` pattern then reject it, cut it, or read it as a different record. A newline inside a field splits the line, and a piece after it that happens to be a well-formed line loads as an extra record. A `"` followed by `","` can shift the fields, so the line is read as another record. A genre whose only newline is its last character is read back unchanged: `%49[^"]` accepts the newline, and the leftover `"` piece is rejected.

## Model

| member | source | states |
|---|---|---|
| CStrings.Truncar | livro.c:29-41 | `strncpy` to n then a terminator: the result is the first min(len, n) characters, a prefix of the argument, unchanged when it already fits |
| CStrings.AteNul | arquivos.c:73-79 | what a C function reads from a buffer: the characters before the first NUL, the whole buffer when it has none, a prefix of it without NUL |
| CStrings.Strcmp | lista_livros.c:86 | the sign of `strcmp`; 0 exactly when the strings are equal |
| CStrings.StrcmpNegativoSeLexMenor | pesquisa_ordenacao.c:41 | `strcmp` is negative exactly when the first string is lexicographically smaller by character code (a proper prefix is smaller) |
| CStrings.StrcmpAntissimetrico | pesquisa_ordenacao.c:41 | swapping the arguments of `strcmp` negates its sign |
| CStrings.StrcmpTransitivo | pesquisa_ordenacao.c:41 | `strcmp(a,b) <= 0` and `strcmp(b,c) <= 0` give `strcmp(a,c) <= 0` |
| CStrings.Strstr | pesquisa_ordenacao.c:21 | `strstr` gives the first position where the needle occurs, or NULL when it occurs nowhere |
| CStrings.StrstrAgulhaVazia | pesquisa_ordenacao.c:21 | an empty needle is found at position 0 |
| Livros.CriarLivro | livro.c:17-45 | NULL exactly when allocation fails; otherwise title, author, ISBN and genre are their first 99/99/13/49 characters, the year is copied, and the record fits its arrays |
| Livros.CriarLivroSemPerda | livro.c:29-41 | arguments that already fit their arrays are stored unchanged |
| Livros.CriarLivroDeCampos | livro.h:26-33 | rebuilding a well-formed record from its five fields gives the same record |
| Nos.CadeiaSemNo | lista_livros.c:98-104 | redirecting the predecessor (or the head) past node i leaves a chain of the other nodes holding the other records in order |
| Nos.Anexar | fila_desejos.c:69-75 | linking a fresh node after the last one gives a chain one longer ending in the new record |
| Nos.CadeiaCauda | fila_desejos.c:116 | following the head's `proximo` gives the chain of the remaining nodes |
| ListaLivros.IndiceIsbn | lista_livros.c:159-172 | the position of the first record whose ISBN equals the key, and none when no record has it |
| ListaLivros.SemPrimeiroIsbn | lista_livros.c:86-113 | the list without its first record whose ISBN matches: one shorter when there is a match, records before it in place, records after it moved up by one; unchanged otherwise |
| ListaLivros.SemPrimeiroIsbnRemoveUm | lista_livros.c:86-113 | removal by ISBN takes out exactly the first matching record (one fewer, the multiset loses that record) and changes nothing when none matches |
| ListaLivros.InseridoEncontrado | lista_livros.c:57-60 | after a head insertion, lookup by that ISBN finds the new record even when an older one has the same ISBN |
| ListaLivros.InserirRemoverIsbnNovo | lista_livros.c:54-113 | inserting a record with a fresh ISBN and removing that ISBN gives back the original list |
| ListaLivros.SemPrimeiroIsbnDistintos | lista_livros.c:86-113 | with distinct ISBNs, removal keeps them distinct and removes exactly that ISBN from the multiset of ISBNs |
| ListaLivros.RemoverTodosEsvazia | lista_livros.c:75-114 | removing every ISBN of a list with distinct ISBNs, in any order, empties it |
| ListaLivros.Inverter | lista_livros.c:57-60 | the list head insertions build: element i is the (n-1-i)-th inserted |
| ListaLivros.InverterInvolutivo | lista_livros.c:57-60 | building a list by head insertion twice restores the original order |
| ListaLivros.ColecaoLivros.constructor | lista_livros.c:22-23 | a new collection has no nodes and count 0 |
| ListaLivros.CriarColecao | lista_livros.c:11-27 | NULL exactly when allocation fails, otherwise a fresh empty collection with `inicio` NULL and `quantidade` 0 |
| ListaLivros.AdicionarLivroColecao | lista_livros.c:38-67 | the record becomes the new head in a fresh node, the old nodes follow, and the count stays the length; NULL collection or failed allocation changes nothing |
| ListaLivros.RemoverLivroColecao | lista_livros.c:75-114 | for a C-string ISBN, returns 1 exactly when some record has the ISBN; the records and the nodes become those without the first match; 0 and no change for NULL collection, NULL ISBN, empty list or no match |
| ListaLivros.LocalizarIsbn | lista_livros.c:86-89 | the search loop stops at the first node whose ISBN is `strcmp`-equal to the key, with its predecessor, or at NULL when none is |
| ListaLivros.Desligar | lista_livros.c:98-110 | unlinking node i removes exactly that node and record and decrements the count |
| ListaLivros.BuscarLivroPorIsbnNaColecao | lista_livros.c:153-173 | for a C-string ISBN, the node of the first record with that ISBN, or NULL; NULL for NULL arguments; nothing modified |
| ListaLivros.ListarTodosLivros | lista_livros.c:120-143 | the records visited are exactly the list, head to tail; nothing modified |
| ListaLivros.TamanhoColecao | lista_livros.h:100-105 | the number of records, 0 for NULL |
| ListaLivros.DestruirColecao | lista_livros.c:179-204 | the walk releases the nodes one at a time, head first, each step leaving the rest a well-formed chain; the collection holds no node afterwards |
| PilhaHistorico.PilhaHistorico.constructor | pilha_historico.c:16 | a new stack has a NULL top |
| PilhaHistorico.CriarPilhaHistorico | pilha_historico.c:7-18 | NULL exactly when allocation fails, otherwise a fresh empty stack |
| PilhaHistorico.PilhaHistoricoVazia | pilha_historico.c:20-26 | 1 exactly when the stack is NULL or empty, else 0 |
| PilhaHistorico.PushHistorico | pilha_historico.c:29-52 | for a C-string ISBN, the ISBN cut to 13 characters becomes the top and the rest is unchanged; NULL stack, NULL ISBN or failed allocation change nothing |
| PilhaHistorico.PopHistorico | pilha_historico.c:54-85 | on a non-empty stack, a copy of the top and the stack becomes its tail; NULL and no change when empty, NULL, or the copy cannot be allocated |
| PilhaHistorico.PeekHistorico | pilha_historico.c:87-99 | the top ISBN without removing it, or NULL when empty |
| PilhaHistorico.DestruirPilhaHistorico | pilha_historico.c:101-120 | popping until empty leaves no entry |
| PilhaHistorico.HistoricoLifo | pilha_historico.c:48-77 | pushing A, B, C and popping three times yields C, B, A |
| FilaDesejos.FilaDesejos.constructor | fila_desejos.c:22-24 | a new queue has both ends NULL and count 0 |
| FilaDesejos.ExtremosNulosJuntos | fila_desejos.c:69-76 | in a valid queue `inicio` is NULL exactly when `fim` is, exactly when the count is 0 |
| FilaDesejos.CriarFilaDesejos | fila_desejos.c:16-26 | NULL exactly when allocation fails, otherwise a fresh empty queue |
| FilaDesejos.FilaDesejosVazia | fila_desejos.c:38-43 | 1 exactly when the queue is NULL or empty |
| FilaDesejos.EnqueueDesejo | fila_desejos.c:54-77 | the record is appended at the tail in a fresh node and the count stays the length; NULL queue or failed allocation change nothing |
| FilaDesejos.DequeueDesejo | fila_desejos.c:91-125 | 1 exactly on a non-empty queue: the old head goes to `out` if it is non-NULL, the rest stays in order, `fim` is NULL iff the queue emptied; otherwise 0, no change, and `out`'s title cleared |
| FilaDesejos.FrontDesejo | fila_desejos.c:139-152 | 1 exactly when `out` is non-NULL and the queue is non-empty, copying the head; NULL `out` gives 0; empty queue gives 0 and clears `out`'s title |
| FilaDesejos.DestruirFilaDesejos | fila_desejos.c:164-175 | dequeuing until empty leaves both ends NULL and no record |
| FilaDesejos.TamanhoFilaDesejos | fila_desejos.c:183-188 | the number of queued records, 0 for NULL |
| FilaDesejos.DesejosFifo | fila_desejos.c:66-124 | enqueueing R1, R2, R3 and dequeuing three times yields R1, R2, R3 and leaves count 0 |
| FilaDesejo.FilaDesejos.constructor | fila_desejo.c:16-18 | a new queue has both ends NULL |
| FilaDesejo.Sentinela | fila_desejo.c:63-68 | the empty-queue result has ISBN "VAZIO" and an empty title, the other fields left as the uninitialised local had them |
| FilaDesejo.CriarFilaDesejos | fila_desejo.c:7-19 | NULL exactly when allocation fails, otherwise a fresh empty queue |
| FilaDesejo.FilaDesejosVazia | fila_desejo.c:21-27 | 1 exactly when the queue is NULL or empty |
| FilaDesejo.EnqueueDesejo | fila_desejo.c:30-61 | the record is appended at the tail; NULL queue or failed allocation change nothing |
| FilaDesejo.DequeueDesejo | fila_desejo.c:63-100 | on a non-empty queue the old head, the queue advancing and `fim` becoming NULL when it empties; on an empty or NULL queue the sentinel and no change |
| FilaDesejo.FrontDesejo | fila_desejo.c:102-117 | the head without removing it, or the sentinel when empty |
| FilaDesejo.DestruirFilaDesejos | fila_desejo.c:119-134 | dequeuing until empty leaves both ends NULL |
| FilaDesejo.DesejosFifo | fila_desejo.c:57-97 | enqueueing R1, R2, R3 and dequeuing four times yields R1, R2, R3, then the sentinel |
| FilaDesejo.SentinelaAmbigua | fila_desejo.c:63-100 | a dequeued record whose ISBN is "VAZIO" cannot be told apart, by ISBN, from the empty-queue sentinel |
| PesquisaOrdenacao.IndiceTitulo | pesquisa_ordenacao.c:17-28 | the position of the first record whose title contains the needle, or none when no title does |
| PesquisaOrdenacao.BuscaVaziaEncontraPrimeiro | pesquisa_ordenacao.c:21 | an empty needle matches the head record |
| PesquisaOrdenacao.PesquisarLivroPorTitulo | pesquisa_ordenacao.c:9-32 | for a C-string needle, the node of the first record, in list order, whose title contains the needle, or NULL; NULL for NULL arguments |
| PesquisaOrdenacao.CompararLivrosPorTitulo | pesquisa_ordenacao.c:36-42 | -1/0/1; 0 iff the titles are equal; negative iff the first title is lexicographically smaller |
| PesquisaOrdenacao.CompararLivrosPorAno | pesquisa_ordenacao.c:44-51 | -1, 0 or 1 as the first year is smaller, equal or larger |
| PesquisaOrdenacao.Comparar | pesquisa_ordenacao.c:78 | the comparator a sort hands to `qsort`: -1, 0 or 1, and 0 exactly when the two records' keys (title or year) are equal |
| PesquisaOrdenacao.CompararAntissimetrico | pesquisa_ordenacao.c:36-51 | both comparators are antisymmetric |
| PesquisaOrdenacao.CompararTransitivo | pesquisa_ordenacao.c:36-51 | both comparators are transitive, so they are the total preorders `qsort` needs |
| PesquisaOrdenacao.OrdenarPor | pesquisa_ordenacao.c:78 | the sort result is non-decreasing under the comparator and a permutation of its input |
| PesquisaOrdenacao.VetorDeLivros | pesquisa_ordenacao.c:69-74 | the array holds exactly the collection's records, in list order |
| PesquisaOrdenacao.OrdenarColecao | pesquisa_ordenacao.c:54-104 | nothing displayed for NULL, fewer than 2 records or failed allocation; otherwise a sorted permutation of the records; the collection is not modified |
| PesquisaOrdenacao.OrdenarColecaoPorTitulo | pesquisa_ordenacao.c:54-104 | the displayed records are a permutation of the collection in non-decreasing `strcmp` order of titles; the list is not reordered |
| PesquisaOrdenacao.OrdenarColecaoPorAno | pesquisa_ordenacao.c:106-134 | the displayed records are a permutation of the collection in non-decreasing year order; the list is not reordered |
| PesquisaOrdenacao.OrdenadoPorAnoDois | pesquisa_ordenacao.c:125 | with two records of different years, the only year-sorted permutation puts the older first |
| FormatoTexto.Decimal | arquivos.c:33-39 | `%d` output: at least one character, a leading minus exactly for a negative value, digits otherwise |
| FormatoTexto.FormatarLinha | arquivos.c:33-39 | the line for one record opens with a quote before the title, ends in a newline, and is 13 characters longer than its five fields |
| FormatoTexto.TextoColecao | arquivos.c:26-40 | the saved text is empty exactly for an empty list and otherwise ends in a newline |
| FormatoTexto.TamanhoFgets | arquivos.c:73 | one `fgets` takes up to and including the first newline, at most 511 characters |
| FormatoTexto.Linhas | arquivos.c:73 | the successive `fgets` buffers: each 1 to 511 characters, with a newline only as its last character, and together exactly the file |
| FormatoTexto.Inteiro | arquivos.c:79-82 | `%d` consumes at least one character when it converts, leaving a proper suffix of the input, and fails on input that is only white space |
| FormatoTexto.Conjunto | arquivos.c:79 | `%N[^"]` reads 1 to N characters other than `"`, and fails on an empty field |
| FormatoTexto.CampoAspas | arquivos.c:79 | a quoted field is 1 to N characters without `"` |
| FormatoTexto.AnalisarLinha | arquivos.c:79-86 | an accepted line yields non-empty, quote-free title, author, ISBN and genre of at most 99/99/13/49 characters |
| FormatoTexto.Aceitas | arquivos.c:73-92 | the records of the accepted lines: at most one per line, each with non-empty quote-free string fields within 99/99/13/49 characters |
| FormatoTexto.CarregarLinhas | arquivos.c:73-92 | the load keeps every record already in the list, unchanged and at the end, and adds at most one record per line |
| FormatoTexto.InteiroDecimal | arquivos.c:33 | `%d` reads back exactly the value `%d` printed and stops at the next non-digit |
| FormatoTexto.DecimalCurto | arquivos.c:70 | a C `int` prints in at most 11 characters |
| FormatoTexto.AnalisarFormatada | arquivos.c:33-86 | parsing the line printed for a record with quote-free fitting fields gives the record back exactly when no string field is empty, and rejects the line otherwise |
| FormatoTexto.LinhaFormatada | arquivos.c:70-73 | a saveable record's line fits the 512-byte buffer and ends in its only newline |
| FormatoTexto.LinhasConcat | arquivos.c:73 | such a line is returned by one `fgets` call |
| FormatoTexto.AceitasTexto | arquivos.c:24-92 | every record of a saved list of saveable records is read back, in file order |
| FormatoTexto.CarregarLinhasDuasVezes | arquivos.c:73-92 | reading the same lines twice puts their accepted records, reversed, twice in front of the existing list |
| FormatoTexto.CarregarLinhasInverte | arquivos.c:73-93 | loading puts the accepted records, in reverse file order, in front of the existing list |
| FormatoTexto.RecarregarTexto | arquivos.c:24-93 | round trip: loading the text saved for a list puts that list, reversed, in front of the existing records |
| FormatoTexto.AspaNoTituloRejeitada | arquivos.c:79-86 | a title containing `"` (not followed by a comma) makes its saved line be rejected on reload |
| FormatoBinario.CodificarTexto | arquivos.c:129 | a `char[n]` field is n bytes: the string's character codes, then zeros |
| FormatoBinario.DecodificarTexto | arquivos.c:170 | reading a `char[n]` field stops at its first zero byte: the bytes before it, as characters, form a C string |
| FormatoBinario.CodificarInt32 | arquivos.c:129 | an `int` is four bytes whose little-endian value is the `int` modulo 2^32 |
| FormatoBinario.DecodificarInt32 | arquivos.c:170 | four bytes read as the `int` congruent to their little-endian value modulo 2^32 |
| FormatoBinario.CodificarLivro | arquivos.c:129 | one record is one fixed-size block of 268 bytes |
| FormatoBinario.DecodificarLivro | arquivos.c:170 | a block yields a record whose string fields are C strings bounded by their arrays and whose year is a C `int` |
| FormatoBinario.ArquivoBinarioConcat | arquivos.c:118-135 | the file of a concatenation is the concatenation of files: no header, no separator |
| FormatoBinario.ArquivoBinario | arquivos.c:118-135 | the saved file has exactly 268 bytes per record |
| FormatoBinario.LivrosDeBlocos | arquivos.c:170-172 | one record per block, each with C-string fields bounded by their arrays and a year in the range of `int` |
| FormatoBinario.CarregarBlocos | arquivos.c:170-172 | the load keeps every record already in the list, unchanged and at the end, and adds one record per block |
| FormatoBinario.Blocos | arquivos.c:170 | `fread` returns only whole blocks |
| FormatoBinario.QuantosBlocos | arquivos.c:170 | a file of b bytes yields b / 268 records; a trailing partial block is ignored |
| FormatoBinario.TextoIda | arquivos.c:129 | a string field that fits its array is read back unchanged |
| FormatoBinario.Int32Ida | arquivos.c:129 | the year of a C `int` is read back unchanged from its four bytes |
| FormatoBinario.LivroIda | arquivos.c:129-170 | reading back the block of a well-formed record gives that record |
| FormatoBinario.BlocosArquivo | arquivos.c:151-172 | the blocks read from a saved file are the saved records' blocks in list order, whatever partial block follows |
| FormatoBinario.DecodificarCodificados | arquivos.c:129-170 | decoding the blocks of well-formed records gives those records back, in order |
| FormatoBinario.CarregarBlocosInverte | arquivos.c:170-172 | loading puts the blocks' records, in reverse file order, in front of the existing list |
| FormatoBinario.RecarregarBinario | arquivos.c:118-172 | round trip: loading a saved file, with any partial block after it, puts the saved list, reversed and unchanged, in front of the existing records |
| FormatoBinario.RecarregarBinarioVazio | arquivos.c:118-172 | reloading a saved file into an empty collection gives the reversed list |
| FormatoBinario.DoisCiclosBinario | arquivos.c:118-172 | two save-and-reload cycles into empty collections restore the original order |
| Arquivos.SalvarColecaoTexto | arquivos.c:9-45 | 0 and nothing written for NULL collection or name or an unopenable file; otherwise 1 and one line per record in list order; the collection is not modified |
| Arquivos.CarregarColecaoTexto | arquivos.c:47-98 | 0 and no change for NULL arguments or an unopenable file; otherwise 1, the accepted records put in front of the old ones in reverse file order, nothing cleared |
| Arquivos.SalvarColecaoBinario | arquivos.c:100-140 | 0 for NULL arguments or an unopenable file; otherwise one block per record in list order, stopping with 0 at the first failed write; the collection is not modified |
| Arquivos.EscreverRegistros | arquivos.c:118-135 | the write loop: it completes exactly when no write fails within the list, and the bytes written are the blocks of every record, or of the records before the failed write |
| Arquivos.EscreverBloco | arquivos.c:129 | one successful `fwrite` appends the next record's 268-byte block to the file |
| Arquivos.CarregarColecaoBinario | arquivos.c:142-178 | 0 and no change for NULL arguments or an unopenable file; otherwise 1, each whole block's record put in front of the old ones in reverse file order, nothing cleared |
| Arquivos.CarregarTextoDuasVezes | arquivos.c:53-88 | loading the same text twice adds its accepted records twice |
| Arquivos.CarregarBinarioDuasVezes | arquivos.c:151-172 | loading the same binary file twice adds its records twice: the count grows by twice the number of whole blocks |

## Left out

- `main.c`, the interactive menu, is not part of this model. Its driver policies are not modelled: the duplicate-ISBN check before insert, the history pushes, binary-then-text loading at startup, and binary-with-text-fallback saving at exit.
- Printing is not modelled: `exibir_livro`, the output of `listar_todos_livros`, and the sorted displays. Only the order of the records they show is kept.
- `fopen`, `fclose`, `fgets`, `fread`, `fwrite`, `perror` and `fprintf` are not modelled as I/O. File contents and open or write failures are parameters. Errors from `fprintf` and `fclose` are not checked by the code either.
- `malloc` and `free` are not modelled as memory. Allocation success is a parameter (except where a line below says otherwise), and freeing is modelled only as the structure no longer holding the node.
- PilhaHistorico.DestruirPilhaHistorico: assumes that every pop's copy allocation succeeds. In C a failed allocation leaves the top in place and the loop pops again, never ending while allocation keeps failing.
- Arquivos.CarregarColecaoTexto: assumes that every node allocation during the load succeeds. In C a failed allocation silently skips that record.
- Arquivos.CarregarColecaoBinario: assumes, in the same way, that every node allocation during the load succeeds.
- FormatoTexto.AnalisarLinha: `%d` is read as an unbounded integer. C leaves a value outside `int` undefined.
- FormatoBinario.CodificarLivro: bytes after a string field's terminator are written as zeros. C writes whatever the array holds there, and that is uninitialised data for records loaded from text. So the binary round trip is proved on the records, not on the raw bytes.
- FormatoBinario.DecodificarLivro: a string field with no NUL inside its array is read only up to the end of the array. C would keep reading into the next field.
- The block layout is fixed at 268 bytes with a little-endian 32-bit `int`. `sizeof(Livro)` and padding are implementation-defined in C.
- `qsort` is not modelled internally. Its result is specified only as a sorted permutation.
- PesquisaOrdenacao.OrdenarColecaoPorTitulo: tie order is not stated, because `qsort` is not stable.
- PesquisaOrdenacao.OrdenarColecaoPorAno: tie order is not stated, for the same reason.
- `lista_encadeada.h`, `fila.h` and `pilha.h` are type-only drafts with no operations and are not part of this model.
- `destruir_livro` is declared in `livro.h` but never defined, so it is not modelled.
- `ler_dados_livro_teclado` is commented out in `livro.c`, so it is not modelled.
- The `int quantidade` counters (`lista_livros.h:28`, `fila_desejo.h:37`) are unbounded integers in the model. Their C overflow after `INT_MAX` insertions is not modelled; no collection or queue that fits in memory reaches it.
- The two wish-queue revisions define the same C symbols and cannot both be linked. They are modelled as separate modules.
